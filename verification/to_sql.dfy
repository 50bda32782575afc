/** The literal encoder: how each parameter value is rendered as SQL text
    before it is spliced into a generated query (src/to_sql.rs). */
module ToSql {
  import opened Common

  /** A calendar date as chrono's `NaiveDate` exposes it (month and day 1-based). */
  datatype Date = Date(year: int, month: int, day: int)

  /** The values that implement the encoder in the model: `&str`/`String`,
      `i32`, `i64`, `NaiveDate`, `Vec<u8>`, `Option<T>` and the `Null` marker.
      `Formatted` stands for `f64`, `Decimal`, `NaiveTime` and `NaiveDateTime`,
      whose text comes from formatters outside the model and is carried as is. */
  datatype SqlValue =
    | Text(s: string)
    | Int32(i: int)
    | Int64(l: int)
    | Day(d: Date)
    | Bytes(b: seq<byte>)
    | Optional(o: Option<SqlValue>)
    | NullValue
    | Formatted(t: string)

  const Quote: char := '\''

  // ---------------------------------------------------------------------------
  // Strings
  // ---------------------------------------------------------------------------

  /** The body of a string literal: every quote doubled, every other character kept. */
  function Escape(s: string): string
  {
    if s == [] then []
    else (if s[0] == Quote then [Quote, Quote] else [s[0]]) + Escape(s[1..])
  }

  /** The whole string literal written for `s`. */
  function Quoted(s: string): string
  {
    [Quote] + Escape(s) + [Quote]
  }

  function CountQuotes(s: string): nat
  {
    if s == [] then 0 else (if s[0] == Quote then 1 else 0) + CountQuotes(s[1..])
  }

  lemma {:induction false} EscapeConcat(a: string, b: string)
    ensures Escape(a + b) == Escape(a) + Escape(b)
  {
    if a == [] {
      assert a + b == b;
    } else {
      assert (a + b)[0] == a[0];
      assert (a + b)[1..] == a[1..] + b;
      EscapeConcat(a[1..], b);
    }
  }

  /** `write_string`: an opening quote, each character of `s` (a quote twice),
      a closing quote. */
  method WriteString(s: string) returns (out: string)
    ensures out == Quoted(s)
  {
    out := [Quote];
    for i := 0 to |s|
      invariant out == [Quote] + Escape(s[..i])
    {
      var c := s[i];
      out := out + [c];
      if c == Quote {
        out := out + [c];
      }
      assert s[..i + 1] == s[..i] + [c];
      EscapeConcat(s[..i], [c]);
      assert Escape([c]) == (if c == Quote then [Quote, Quote] else [c]) + Escape([]);
    }
    assert s[..|s|] == s;
    out := out + [Quote];
  }

  /** The encoded string is the text, plus one character per quote, plus the two delimiters. */
  lemma {:induction false} QuotedLength(s: string)
    ensures |Quoted(s)| == |s| + CountQuotes(s) + 2
  {
    EscapeLength(s);
  }

  lemma {:induction false} EscapeLength(s: string)
    ensures |Escape(s)| == |s| + CountQuotes(s)
  {
    if s != [] {
      EscapeLength(s[1..]);
    }
  }

  /** Collapses each doubled quote back to one; a lone quote is malformed. */
  function Unescape(t: string): Option<string>
  {
    if t == [] then Some([])
    else if t[0] == Quote then
      if |t| >= 2 && t[1] == Quote then
        match Unescape(t[2..])
        case Some(r) => Some([Quote] + r)
        case None => None
      else None
    else
      match Unescape(t[1..])
      case Some(r) => Some([t[0]] + r)
      case None => None
  }

  /** Dropping the delimiters and collapsing each doubled quote gives back the original text. */
  lemma {:induction false} UnescapeInvertsEscape(s: string)
    ensures Unescape(Escape(s)) == Some(s)
  {
    if s != [] {
      UnescapeInvertsEscape(s[1..]);
      var t := Escape(s);
      if s[0] == Quote {
        assert t == [Quote, Quote] + Escape(s[1..]);
        assert t[2..] == Escape(s[1..]);
      } else {
        assert t == [s[0]] + Escape(s[1..]);
        assert t[1..] == Escape(s[1..]);
      }
      assert [s[0]] + s[1..] == s;
    }
  }

  /** How a SQL lexer reads what follows the opening quote of a string literal:
      a doubled quote stands for one quote and a single quote ends the literal.
      Gives the literal's value and the text after the closing quote, or None
      when the literal never ends. */
  function ReadQuotedBody(t: string): Option<(string, string)>
  {
    if t == [] then None
    else if t[0] == Quote then
      if |t| >= 2 && t[1] == Quote then
        match ReadQuotedBody(t[2..])
        case Some((v, rest)) => Some(([Quote] + v, rest))
        case None => None
      else Some(([], t[1..]))
    else
      match ReadQuotedBody(t[1..])
      case Some((v, rest)) => Some(([t[0]] + v, rest))
      case None => None
  }

  function ReadSqlString(t: string): Option<(string, string)>
  {
    if |t| >= 1 && t[0] == Quote then ReadQuotedBody(t[1..]) else None
  }

  lemma {:induction false} ReadEscapedBody(s: string, rest: string)
    requires rest == [] || rest[0] != Quote
    ensures ReadQuotedBody(Escape(s) + [Quote] + rest) == Some((s, rest))
  {
    var t := Escape(s) + [Quote] + rest;
    if s == [] {
      assert t == [Quote] + rest;
      assert t[1..] == rest;
    } else {
      ReadEscapedBody(s[1..], rest);
      if s[0] == Quote {
        assert t == [Quote, Quote] + (Escape(s[1..]) + [Quote] + rest);
        assert t[2..] == Escape(s[1..]) + [Quote] + rest;
      } else {
        assert t == [s[0]] + (Escape(s[1..]) + [Quote] + rest);
        assert t[1..] == Escape(s[1..]) + [Quote] + rest;
      }
      assert [s[0]] + s[1..] == s;
    }
  }

  /** Injection safety: whatever `s` holds, a SQL lexer reading the encoded
      literal recovers exactly `s` and ends the literal at the closing quote the
      encoder wrote, so the text that follows is read as SQL again. (Text that
      itself starts with a quote would continue the literal, as SQL reads `''`.) */
  lemma {:induction false} EncodedStringEndsWhereWritten(s: string, rest: string)
    requires rest == [] || rest[0] != Quote
    ensures ReadSqlString(Quoted(s) + rest) == Some((s, rest))
  {
    var t := Quoted(s) + rest;
    assert t == [Quote] + (Escape(s) + [Quote] + rest);
    assert t[1..] == Escape(s) + [Quote] + rest;
    ReadEscapedBody(s, rest);
  }

  // ---------------------------------------------------------------------------
  // Blobs
  // ---------------------------------------------------------------------------

  function HexDigit(n: int): char
    requires 0 <= n < 16
  {
    if n < 10 then ('0' as int + n) as char else ('A' as int + n - 10) as char
  }

  predicate IsUpperHexDigit(c: char)
  {
    '0' <= c <= '9' || 'A' <= c <= 'F'
  }

  function HexValue(c: char): int
  {
    if '0' <= c <= '9' then c as int - '0' as int
    else if 'A' <= c <= 'F' then c as int - 'A' as int + 10
    else 0
  }

  /** Two upper-case hexadecimal digits per byte, most significant first (`{:02X}`). */
  function Hex(b: seq<byte>): string
  {
    if b == [] then []
    else [HexDigit(b[0] / 16), HexDigit(b[0] % 16)] + Hex(b[1..])
  }

  /** Reads two hexadecimal digits per byte. */
  function Unhex(t: string): seq<int>
  {
    if |t| < 2 then [] else [16 * HexValue(t[0]) + HexValue(t[1])] + Unhex(t[2..])
  }

  lemma {:induction false} HexConcat(a: seq<byte>, b: seq<byte>)
    ensures Hex(a + b) == Hex(a) + Hex(b)
  {
    if a == [] {
      assert a + b == b;
    } else {
      assert (a + b)[0] == a[0];
      assert (a + b)[1..] == a[1..] + b;
      HexConcat(a[1..], b);
    }
  }

  /** The `Vec<u8>` encoder: `0x` and then each byte as two hexadecimal digits. */
  method WriteBlob(b: seq<byte>) returns (out: string)
    ensures out == "0x" + Hex(b)
  {
    out := "0x";
    for i := 0 to |b|
      invariant out == "0x" + Hex(b[..i])
    {
      var c := b[i];
      out := out + [HexDigit(c / 16), HexDigit(c % 16)];
      assert b[..i + 1] == b[..i] + [c];
      HexConcat(b[..i], [c]);
      assert Hex([c]) == [HexDigit(c / 16), HexDigit(c % 16)] + Hex([]);
    }
    assert b[..|b|] == b;
  }

  /** A blob literal is `0x` followed by exactly two upper-case hexadecimal
      digits per byte, and those digits give the bytes back. */
  lemma {:induction false} BlobLiteralShape(b: seq<byte>)
    ensures |Hex(b)| == 2 * |b|
    ensures forall j :: 0 <= j < |Hex(b)| ==> IsUpperHexDigit(Hex(b)[j])
    ensures Unhex(Hex(b)) == b
  {
    if b != [] {
      BlobLiteralShape(b[1..]);
      var h := Hex(b);
      var hi, lo := b[0] / 16, b[0] % 16;
      assert h == [HexDigit(hi), HexDigit(lo)] + Hex(b[1..]);
      assert HexValue(HexDigit(hi)) == hi;
      assert HexValue(HexDigit(lo)) == lo;
      assert h[2..] == Hex(b[1..]);
      forall j | 0 <= j < |h|
        ensures IsUpperHexDigit(h[j])
      {
        if j >= 2 {
          assert h[j] == Hex(b[1..])[j - 2];
        }
      }
      assert [b[0]] + b[1..] == b;
    }
  }

  // ---------------------------------------------------------------------------
  // Integers and dates
  // ---------------------------------------------------------------------------

  function DigitChar(n: int): char
    requires 0 <= n < 10
  {
    ('0' as int + n) as char
  }

  predicate IsDigit(c: char)
  {
    '0' <= c <= '9'
  }

  /** The decimal digits of `n`, most significant first, without leading zeros. */
  function Digits(n: nat): string
  {
    if n < 10 then [DigitChar(n)] else Digits(n / 10) + [DigitChar(n % 10)]
  }

  /** `{}` of a signed integer: a minus sign only for negative values. */
  function DecimalString(n: int): string
  {
    if n < 0 then "-" + Digits(-n) else Digits(n)
  }

  /** The value of a string of decimal digits. */
  function DigitsValue(s: string): nat
  {
    if s == [] then 0
    else 10 * DigitsValue(s[..|s| - 1]) + (if IsDigit(s[|s| - 1]) then s[|s| - 1] as int - '0' as int else 0)
  }

  function ParseDecimal(s: string): int
  {
    if |s| >= 1 && s[0] == '-' then 0 - DigitsValue(s[1..]) else DigitsValue(s)
  }

  lemma {:induction false} DigitsFacts(n: nat)
    ensures |Digits(n)| >= 1
    ensures forall j :: 0 <= j < |Digits(n)| ==> IsDigit(Digits(n)[j])
    ensures n != 0 ==> Digits(n)[0] != '0'
    ensures DigitsValue(Digits(n)) == n
  {
    if n >= 10 {
      DigitsFacts(n / 10);
      var d := Digits(n);
      assert d == Digits(n / 10) + [DigitChar(n % 10)];
      assert d[..|d| - 1] == Digits(n / 10);
      assert d[0] == Digits(n / 10)[0];
      forall j | 0 <= j < |d|
        ensures IsDigit(d[j])
      {
        if j < |d| - 1 {
          assert d[j] == Digits(n / 10)[j];
        }
      }
    }
  }

  /** Integers encode as their decimal representation: digits only, no
      leading zero, a leading minus sign exactly when negative, and reading
      the text back gives the value. */
  lemma IntegerLiteralRoundTrip(n: int)
    ensures ParseDecimal(DecimalString(n)) == n
    ensures (|DecimalString(n)| >= 1 && DecimalString(n)[0] == '-') <==> n < 0
    ensures forall j :: (if n < 0 then 1 else 0) <= j < |DecimalString(n)| ==> IsDigit(DecimalString(n)[j])
  {
    var m: nat := if n < 0 then -n else n;
    DigitsFacts(m);
    if n < 0 {
      assert DecimalString(n)[1..] == Digits(m);
      forall j | 1 <= j < |DecimalString(n)|
        ensures IsDigit(DecimalString(n)[j])
      {
        assert DecimalString(n)[j] == Digits(m)[j - 1];
      }
    } else {
      assert IsDigit(Digits(m)[0]);
    }
  }

  function Zeros(k: nat): string
  {
    if k == 0 then [] else Zeros(k - 1) + ['0']
  }

  /** `n` in decimal, zero-padded on the left to at least `width` digits. */
  function Padded(n: nat, width: nat): string
  {
    var d := Digits(n);
    if |d| < width then Zeros(width - |d|) + d else d
  }

  /** chrono's `%Y`: four zero-padded digits for years 0 to 9999, and an
      explicit sign outside that range. */
  function YearString(y: int): string
  {
    if 0 <= y <= 9999 then Padded(y, 4)
    else if y < 0 then "-" + Padded(-y, 4)
    else "+" + Digits(y)
  }

  /** The `NaiveDate` encoder: `'%Y/%m/%d'`. */
  function DateLiteral(d: Date): string
  {
    [Quote] + YearString(d.year) + "/" + Padded(if d.month < 0 then 0 else d.month, 2)
      + "/" + Padded(if d.day < 0 then 0 else d.day, 2) + [Quote]
  }

  lemma {:induction false} ZerosFacts(k: nat)
    ensures |Zeros(k)| == k
    ensures forall j :: 0 <= j < k ==> Zeros(k)[j] == '0'
  {
    if k > 0 {
      ZerosFacts(k - 1);
    }
  }

  lemma {:induction false} DigitsValueLeadingZeros(k: nat, s: string)
    ensures DigitsValue(Zeros(k) + s) == DigitsValue(s)
    decreases |s|
  {
    if s == [] {
      assert Zeros(k) + s == Zeros(k);
      ZerosValue(k);
    } else {
      var t := Zeros(k) + s;
      assert t[..|t| - 1] == Zeros(k) + s[..|s| - 1];
      assert t[|t| - 1] == s[|s| - 1];
      DigitsValueLeadingZeros(k, s[..|s| - 1]);
    }
  }

  lemma {:induction false} ZerosValue(k: nat)
    ensures DigitsValue(Zeros(k)) == 0
  {
    if k > 0 {
      assert Zeros(k)[..|Zeros(k)| - 1] == Zeros(k - 1);
      ZerosValue(k - 1);
    }
  }

  /** Zero padding keeps the value and reaches the requested width exactly
      when the value has no more digits than that. */
  lemma PaddedFacts(n: nat, width: nat)
    ensures DigitsValue(Padded(n, width)) == n
    ensures |Digits(n)| <= width ==> |Padded(n, width)| == width
    ensures forall j :: 0 <= j < |Padded(n, width)| ==> IsDigit(Padded(n, width)[j])
  {
    DigitsFacts(n);
    var d := Digits(n);
    if |d| < width {
      ZerosFacts(width - |d|);
      DigitsValueLeadingZeros(width - |d|, d);
      var p := Padded(n, width);
      forall j | 0 <= j < |p|
        ensures IsDigit(p[j])
      {
        if j >= width - |d| {
          assert p[j] == d[j - (width - |d|)];
        } else {
          assert p[j] == Zeros(width - |d|)[j];
        }
      }
    }
  }

  function Pow10(k: nat): nat
  {
    if k == 0 then 1 else 10 * Pow10(k - 1)
  }

  lemma {:induction false} DigitsBelow(n: nat, k: nat)
    requires k >= 1 && n < Pow10(k)
    ensures |Digits(n)| <= k
  {
    if n >= 10 {
      DigitsBelow(n / 10, k - 1);
    }
  }

  /** A date of a four-digit year encodes as `'YYYY/MM/DD'`: twelve
      characters, quotes at both ends, slashes at offsets 5 and 8, and each
      field reads back as the date's year, month and day. */
  lemma DateLiteralShape(d: Date)
    requires 0 <= d.year <= 9999 && 1 <= d.month <= 12 && 1 <= d.day <= 31
    ensures var t := DateLiteral(d);
      && |t| == 12
      && t[0] == Quote && t[11] == Quote && t[5] == '/' && t[8] == '/'
      && DigitsValue(t[1..5]) == d.year
      && DigitsValue(t[6..8]) == d.month
      && DigitsValue(t[9..11]) == d.day
  {
    assert Pow10(4) == 10000 && Pow10(2) == 100 by {
      assert Pow10(1) == 10;
    }
    DigitsBelow(d.year, 4);
    DigitsBelow(d.month, 2);
    DigitsBelow(d.day, 2);
    PaddedFacts(d.year, 4);
    PaddedFacts(d.month, 2);
    PaddedFacts(d.day, 2);
    var y, m, dd := Padded(d.year, 4), Padded(d.month, 2), Padded(d.day, 2);
    assert DateLiteral(d) == [Quote] + y + "/" + m + "/" + dd + [Quote];
    DateLayout(y, m, dd);
  }

  /** Where the fields of a date literal sit. */
  lemma DateLayout(y: string, m: string, dd: string)
    requires |y| == 4 && |m| == 2 && |dd| == 2
    ensures var t := [Quote] + y + "/" + m + "/" + dd + [Quote];
      && |t| == 12
      && t[0] == Quote && t[11] == Quote && t[5] == '/' && t[8] == '/'
      && t[1..5] == y && t[6..8] == m && t[9..11] == dd
  {
  }

  // ---------------------------------------------------------------------------
  // Dispatch
  // ---------------------------------------------------------------------------

  /** The SQL text each value encodes to. */
  function Encode(v: SqlValue): string
  {
    match v
    case Text(s) => Quoted(s)
    case Int32(i) => DecimalString(i)
    case Int64(l) => DecimalString(l)
    case Day(d) => DateLiteral(d)
    case Bytes(b) => "0x" + Hex(b)
    case Optional(o) =>
      (match o
       case None => "null"
       case Some(x) => Encode(x))
    case NullValue => "null"
    case Formatted(t) => t
  }

  /** `to_sql`: writes the encoding of `v`. */
  method WriteValue(v: SqlValue) returns (out: string)
    ensures out == Encode(v)
    decreases v
  {
    match v
    case Text(s) =>
      out := WriteString(s);
    case Int32(i) =>
      out := DecimalString(i);
    case Int64(l) =>
      out := DecimalString(l);
    case Day(d) =>
      out := DateLiteral(d);
    case Bytes(b) =>
      out := WriteBlob(b);
    case Optional(o) =>
      match o {
        case None =>
          out := "null";
        case Some(x) =>
          out := WriteValue(x);
      }
    case NullValue =>
      out := "null";
    case Formatted(t) =>
      out := t;
  }
}
