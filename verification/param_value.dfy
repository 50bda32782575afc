/** Statement parameter values and the conversions into them (src/param_value.rs). */
module ParamValues {
  import opened Common
  import ToSql

  /** A value produced by a library outside the model (`f64`, `Decimal`,
      `NaiveTime`, `NaiveDateTime`), kept as the SQL text its encoder writes. */
  datatype External = External(sql: string)

  /** `ParamValue`. */
  datatype ParamValue =
    | Null
    | String(s: string)
    | I32(i: int)
    | I64(l: int)
    | F64(f: External)
    | Decimal(x: External)
    | Date(d: ToSql.Date)
    | Time(t: External)
    | DateTime(dt: External)
    | Blob(b: seq<byte>)

  // ---------------------------------------------------------------------------
  // Conversions (`From` impls)
  // ---------------------------------------------------------------------------

  /** `From<&str>` and `From<String>`. */
  function FromString(s: string): (r: ParamValue)
    ensures r.String? && r.s == s
  {
    String(s)
  }

  /** `From<bool>`: `true` is the integer 1 and `false` the integer 0, so that
      reading the value back with the "non-zero is true" rule gives `b`. */
  function FromBool(b: bool): (r: ParamValue)
    ensures r.I32? && 0 <= r.i <= 1
    ensures r.i != 0 <==> b
  {
    if b then I32(1) else I32(0)
  }

  /** `From<i32>`. */
  function FromI32(i: int): (r: ParamValue)
    requires IsI32(i)
    ensures r.I32? && r.i == i
  {
    I32(i)
  }

  /** `From<i64>`. */
  function FromI64(l: int): (r: ParamValue)
    requires IsI64(l)
    ensures r.I64? && r.l == l
  {
    I64(l)
  }

  /** `From<NaiveDate>`. */
  function FromDate(d: ToSql.Date): (r: ParamValue)
    ensures r.Date? && r.d == d
  {
    Date(d)
  }

  /** `From<Vec<u8>>` and `From<&[u8]>`. */
  function FromBytes(b: seq<byte>): (r: ParamValue)
    ensures r.Blob? && r.b == b
  {
    Blob(b)
  }

  predicate IsI8(x: int) { -128 <= x < 128 }

  /** `c as u8` for an `i8`: the same bit pattern read as unsigned. */
  function I8AsU8(x: int): (r: byte)
    requires IsI8(x)
    ensures r == (x + 256) % 256
  {
    if x < 0 then x + 256 else x
  }

  /** `b as i8` for a `u8`, the inverse reading. */
  function U8AsI8(x: byte): (r: int)
    ensures IsI8(r)
  {
    if x >= 128 then x - 256 else x
  }

  /** The byte-wise reinterpretation of a signed byte string. */
  function ReinterpretI8s(v: seq<int>): (r: seq<byte>)
    requires forall k :: 0 <= k < |v| ==> IsI8(v[k])
    ensures |r| == |v|
    ensures forall k :: 0 <= k < |v| ==> r[k] == (v[k] + 256) % 256
  {
    if v == [] then [] else [I8AsU8(v[0])] + ReinterpretI8s(v[1..])
  }

  /** `From<Vec<i8>>` and `From<&[i8]>`: a blob with the same bit patterns. */
  function FromI8s(v: seq<int>): (r: ParamValue)
    requires forall k :: 0 <= k < |v| ==> IsI8(v[k])
    ensures r.Blob? && |r.b| == |v|
  {
    Blob(ReinterpretI8s(v))
  }

  /** Reading each byte of the blob back as signed gives the original bytes. */
  lemma SignedBytesRoundTrip(v: seq<int>)
    requires forall k :: 0 <= k < |v| ==> IsI8(v[k])
    ensures forall k :: 0 <= k < |v| ==> U8AsI8(FromI8s(v).b[k]) == v[k]
  {
  }

  /** `From<Option<T>>` for every encodable `T`, and the other conversions by
      the type they start from: the encoder's value shapes map onto
      `ParamValue` case by case, an absent option onto `Null`. */
  function FromSql(v: ToSql.SqlValue): ParamValue
  {
    match v
    case Text(s) => FromString(s)
    case Int32(i) => I32(i)
    case Int64(l) => I64(l)
    case Day(d) => FromDate(d)
    case Bytes(b) => FromBytes(b)
    case Optional(o) =>
      (match o
       case None => Null
       case Some(x) => FromSql(x))
    case NullValue => Null
    case Formatted(t) => F64(External(t))
  }

  // ---------------------------------------------------------------------------
  // Encoding a parameter value
  // ---------------------------------------------------------------------------

  /** The encoder a `ParamValue` dispatches to: each variant encodes as its payload. */
  function Lower(p: ParamValue): (r: ToSql.SqlValue)
    ensures !r.Optional?
    ensures p.Null? <==> r.NullValue?
  {
    match p
    case Null => ToSql.NullValue
    case String(s) => ToSql.Text(s)
    case I32(i) => ToSql.Int32(i)
    case I64(l) => ToSql.Int64(l)
    case F64(x) => ToSql.Formatted(x.sql)
    case Decimal(x) => ToSql.Formatted(x.sql)
    case Date(d) => ToSql.Day(d)
    case Time(x) => ToSql.Formatted(x.sql)
    case DateTime(x) => ToSql.Formatted(x.sql)
    case Blob(b) => ToSql.Bytes(b)
  }

  /** The SQL text a parameter value is written as. */
  function EncodeParam(p: ParamValue): string
  {
    ToSql.Encode(Lower(p))
  }

  /** Converting a value into a `ParamValue` does not change the SQL it is
      written as: an option encodes as its content or `null`, either way. */
  lemma {:induction false} ConversionKeepsEncoding(v: ToSql.SqlValue)
    ensures EncodeParam(FromSql(v)) == ToSql.Encode(v)
  {
    match v
    case Optional(o) =>
      if o.Some? {
        ConversionKeepsEncoding(o.value);
      }
    case _ =>
  }

  /** The conversions lose nothing: every parameter value whose payload the
      model sees is recovered from the encoder value it dispatches to. */
  lemma LowerThenConvert(p: ParamValue)
    requires !(p.F64? || p.Decimal? || p.Time? || p.DateTime?)
    ensures FromSql(Lower(p)) == p
  {
  }

  /** `true` and `false` encode as the integers `1` and `0`. */
  lemma BoolEncoding(b: bool)
    ensures EncodeParam(FromBool(b)) == (if b then "1" else "0")
  {
    assert ToSql.Digits(1) == "1";
    assert ToSql.Digits(0) == "0";
  }
}
