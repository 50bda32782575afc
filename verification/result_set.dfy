/** The client-side result set: the items a query produced (row sets, status
    codes, update counts), a cursor over those items and, inside a row set, a
    cursor over its rows (src/result_set.rs). */
module ResultSets {
  import opened Common
  import opened ColumnIds
  import ToSql

  // ---------------------------------------------------------------------------
  // Data
  // ---------------------------------------------------------------------------

  /** The server datatypes the driver tells apart (`CS_*_TYPE`); every other
      code is `Other`. */
  datatype DataType =
    | CharType | LongCharType | VarCharType | UniCharType | TextType | UniTextType
    | BinaryType | LongBinaryType | VarBinaryType | ImageType
    | BitType | TinyIntType | SmallIntType | IntType | LongType
    | DateType | TimeType | DateTimeType | DateTime4Type
    | MoneyType | Money4Type | DecimalType | NumericType | RealType | FloatType
    | Other(code: int)

  /** The character family, whose buffers carry a terminating zero byte. */
  predicate IsCharacter(t: DataType)
  {
    t.CharType? || t.LongCharType? || t.VarCharType? || t.UniCharType? || t.TextType? || t.UniTextType?
  }

  /** `Column`: its name and the parts of its format the driver reads. */
  datatype Column = Column(name: string, dataType: DataType, maxlength: int)

  /** One cell: `None` for SQL NULL, otherwise the bytes fetched. */
  type Cell = Option<seq<byte>>

  /** `Rows`: the columns, the rows fetched, and the row cursor. */
  datatype Rows = Rows(columns: seq<Column>, rows: seq<seq<Cell>>, pos: Option<nat>)

  /** Every row has one cell per column. */
  predicate WellFormed(r: Rows)
  {
    forall k :: 0 <= k < |r.rows| ==> |r.rows[k]| == |r.columns|
  }

  /** `SybResult`: one item of a result set. */
  datatype SybResult = RowResult(rows: Rows) | Status(status: int) | UpdateCount(count: int)

  /** `ResultType`. */
  datatype ResultType = NoResult | RowsKind | StatusKind | UpdateCountKind

  function KindOf(r: SybResult): (t: ResultType)
    ensures t != NoResult
  {
    match r
    case RowResult(_) => RowsKind
    case Status(_) => StatusKind
    case UpdateCount(_) => UpdateCountKind
  }

  // ---------------------------------------------------------------------------
  // Cursor arithmetic
  // ---------------------------------------------------------------------------

  /** How `next_results` moves the item cursor over `n` items: from nowhere to
      the first item (unless there is none), otherwise one further. */
  function Advance(pos: Option<nat>, n: nat): Option<nat>
  {
    match pos
    case None => if n == 0 then None else Some(0)
    case Some(p) => Some(p + 1)
  }

  predicate InRange(pos: Option<nat>, n: nat)
  {
    pos.Some? && pos.value < n
  }

  /** The cursor after `k` moves from the fresh state. */
  function AdvanceTimes(n: nat, k: nat): Option<nat>
  {
    if k == 0 then None else Advance(AdvanceTimes(n, k - 1), n)
  }

  /** From the fresh state the k-th move lands on item `k - 1`, so the moves
      succeed exactly `n` times and visit the items in stored order. */
  lemma {:induction false} AdvanceVisitsInOrder(n: nat, k: nat)
    requires k >= 1
    ensures n == 0 ==> AdvanceTimes(n, k).None?
    ensures n > 0 ==> AdvanceTimes(n, k) == Some(k - 1)
    ensures InRange(AdvanceTimes(n, k), n) <==> k <= n
  {
    if k > 1 {
      AdvanceVisitsInOrder(n, k - 1);
    }
  }

  /** How `next` moves the row cursor of a row set: like the item cursor,
      except that an empty row set is parked at position 0. */
  function RowAdvance(r: Rows): (s: Rows)
    ensures s.columns == r.columns && s.rows == r.rows && s.pos.Some?
  {
    if |r.rows| == 0 then r.(pos := Some(0)) else r.(pos := Advance(r.pos, |r.rows|))
  }

  /** The row cursor stands on a row. */
  predicate HasRow(r: Rows)
  {
    InRange(r.pos, |r.rows|)
  }

  function RowAdvanceTimes(r: Rows, k: nat): Rows
  {
    if k == 0 then r else RowAdvance(RowAdvanceTimes(r, k - 1))
  }

  /** From a fresh row cursor, `next` yields a row exactly `|rows|` times,
      the k-th time row `k - 1`. */
  lemma {:induction false} RowCursorVisitsEveryRow(r: Rows, k: nat)
    requires r.pos.None? && k >= 1
    ensures |r.rows| > 0 ==> RowAdvanceTimes(r, k).pos == AdvanceTimes(|r.rows|, k)
    ensures HasRow(RowAdvanceTimes(r, k)) <==> k <= |r.rows|
  {
    if |r.rows| > 0 {
      RowAdvanceTimesFollowsAdvance(r, k);
      AdvanceVisitsInOrder(|r.rows|, k);
    } else {
      assert RowAdvanceTimes(r, k).pos == Some(0) by {
        EmptyRowCursorParks(r, k);
      }
    }
  }

  lemma {:induction false} RowAdvanceTimesFollowsAdvance(r: Rows, k: nat)
    requires r.pos.None? && |r.rows| > 0
    ensures RowAdvanceTimes(r, k).pos == AdvanceTimes(|r.rows|, k)
    ensures RowAdvanceTimes(r, k).rows == r.rows
  {
    if k > 0 {
      RowAdvanceTimesFollowsAdvance(r, k - 1);
    }
  }

  lemma {:induction false} EmptyRowCursorParks(r: Rows, k: nat)
    requires |r.rows| == 0 && k >= 1
    ensures RowAdvanceTimes(r, k).pos == Some(0) && RowAdvanceTimes(r, k).rows == []
  {
    if k > 1 {
      EmptyRowCursorParks(r, k - 1);
    }
  }

  /** Where the seek helpers land: the first item of kind `t`, or one past
      the end when there is none. */
  function FirstOf(results: seq<SybResult>, t: ResultType): (i: nat)
    ensures i <= |results|
    ensures i < |results| ==> KindOf(results[i]) == t
    ensures forall j :: 0 <= j < i ==> KindOf(results[j]) != t
  {
    if results == [] then 0
    else if KindOf(results[0]) == t then 0
    else 1 + FirstOf(results[1..], t)
  }

  // ---------------------------------------------------------------------------
  // Column lookup
  // ---------------------------------------------------------------------------

  /** The first column called `name`, or `|columns|` when there is none. */
  function FirstNamed(columns: seq<Column>, name: string): (i: nat)
    ensures i <= |columns|
    ensures i < |columns| ==> columns[i].name == name
    ensures forall j :: 0 <= j < i ==> columns[j].name != name
  {
    if columns == [] then 0
    else if columns[0].name == name then 0
    else 1 + FirstNamed(columns[1..], name)
  }

  /** How `get_buffer` turns a column identifier into a column position: a
      position must be non-negative and below the column count, a name must
      belong to some column and stands for the first column carrying it. */
  function ColumnIndex(columns: seq<Column>, col: ColumnId): (r: Result<nat>)
    ensures r.Ok? ==> r.value < |columns|
    ensures r.Err? ==> r.error == FromMessage("Invalid column index")
    ensures col.I32? ==> (r.Ok? <==> 0 <= col.i < |columns|)
    ensures col.I32? && r.Ok? ==> r.value == col.i
    ensures col.String? ==> (r.Ok? <==> exists j :: 0 <= j < |columns| && columns[j].name == col.s)
    ensures col.String? && r.Ok? ==>
      columns[r.value].name == col.s && forall j :: 0 <= j < r.value ==> columns[j].name != col.s
  {
    var i: int :=
      match col
      case I32(n) => n
      case String(s) => FirstNamed(columns, s);
    if 0 <= i < |columns| then Ok(i) else Err(FromMessage("Invalid column index"))
  }

  // ---------------------------------------------------------------------------
  // What the cursor sees
  // ---------------------------------------------------------------------------

  /** The row set at item `p`, or why there is none. */
  function RowsAt(results: seq<SybResult>, p: nat): (r: Result<Rows>)
    ensures r.Ok? <==> p < |results| && results[p].RowResult?
    ensures r.Ok? ==> r.value == results[p].rows
  {
    if p >= |results| then Err(FromMessage("No more results"))
    else if results[p].RowResult? then Ok(results[p].rows)
    else Err(FromMessage("Current results do not contain rows"))
  }

  /** The cell of column `col` in the row under the row cursor. */
  function CellAt(rows: Rows, col: ColumnId): (r: Result<(Column, Cell)>)
    requires WellFormed(rows)
    ensures r.Ok? <==> HasRow(rows) && ColumnIndex(rows.columns, col).Ok?
    ensures r.Ok? ==>
      var c := ColumnIndex(rows.columns, col).value;
      r.value == (rows.columns[c], rows.rows[rows.pos.value][c])
    ensures ColumnIndex(rows.columns, col).Err? ==> r == Err(ColumnIndex(rows.columns, col).error)
    ensures ColumnIndex(rows.columns, col).Ok? && rows.pos.None? ==> r == Err(FromMessage("Invalid state"))
    ensures ColumnIndex(rows.columns, col).Ok? && rows.pos.Some? && rows.pos.value >= |rows.rows| ==>
      r == Err(FromMessage("ResultSet exhausted"))
  {
    match ColumnIndex(rows.columns, col)
    case Err(e) => Err(e)
    case Ok(c) =>
      if rows.pos.None? then Err(FromMessage("Invalid state"))
      else if rows.pos.value >= |rows.rows| then Err(FromMessage("ResultSet exhausted"))
      else Ok((rows.columns[c], rows.rows[rows.pos.value][c]))
  }

  /** The current cell as `get_buffer` finds it: "Invalid state" before the
      first move, on an item that is not a row set or before the first row,
      "ResultSet exhausted" past the last item (and, here, past the last
      row), "Invalid column index" for an unknown column. */
  function BufferAt(results: seq<SybResult>, pos: Option<nat>, col: ColumnId): (r: Result<(Column, Cell)>)
    requires forall k :: 0 <= k < |results| && results[k].RowResult? ==> WellFormed(results[k].rows)
    ensures r.Ok? <==>
      InRange(pos, |results|) && results[pos.value].RowResult?
      && HasRow(results[pos.value].rows) && ColumnIndex(results[pos.value].rows.columns, col).Ok?
    ensures InRange(pos, |results|) && results[pos.value].RowResult? ==>
      r == CellAt(results[pos.value].rows, col)
    ensures pos.None? ==> r == Err(FromMessage("Invalid state"))
    ensures pos.Some? && pos.value >= |results| ==> r == Err(FromMessage("ResultSet exhausted"))
    ensures InRange(pos, |results|) && !results[pos.value].RowResult? ==> r == Err(FromMessage("Invalid state"))
  {
    if pos.None? then Err(FromMessage("Invalid state"))
    else if pos.value >= |results| then Err(FromMessage("ResultSet exhausted"))
    else if results[pos.value].RowResult? then CellAt(results[pos.value].rows, col)
    else Err(FromMessage("Invalid state"))
  }

  /** The condition under which `get_buffer`, as written, reaches its row
      lookup with a row cursor that is past the last row: the lookup has no
      bound check, so the call panics there. */
  predicate BufferLookupOutOfBoundsAsWritten(results: seq<SybResult>, pos: Option<nat>, col: ColumnId)
  {
    InRange(pos, |results|) && results[pos.value].RowResult?
    && ColumnIndex(results[pos.value].rows.columns, col).Ok?
    && results[pos.value].rows.pos.Some?
    && results[pos.value].rows.pos.value >= |results[pos.value].rows.rows|
  }

  /** A one-row result whose cursor has been moved past its only row, as
      `next` leaves it after returning false. */
  const ExhaustedSample: seq<SybResult> :=
    [RowResult(RowAdvance(RowAdvance(Rows([Column("a", IntType, 4)], [[None]], None))))]

  /** As written, reading column 0 once `next` has returned false on that
      result indexes past the end of the rows. */
  lemma ReadAfterLastRowPanicsAsWritten()
    ensures !HasRow(ExhaustedSample[0].rows)
    ensures BufferLookupOutOfBoundsAsWritten(ExhaustedSample, Some(0), ColumnIds.I32(0))
  {
  }

  /** With the bound check in place the same read is an error, and more
      generally no read succeeds once `next` has reported the end. */
  lemma ReadAfterLastRowFails(results: seq<SybResult>, p: nat, col: ColumnId)
    requires forall k :: 0 <= k < |results| && results[k].RowResult? ==> WellFormed(results[k].rows)
    requires p < |results| && results[p].RowResult? && !HasRow(results[p].rows)
    ensures BufferAt(results, Some(p), col).Err?
    ensures ColumnIndex(results[p].rows.columns, col).Ok? && results[p].rows.pos.Some? ==>
      BufferAt(results, Some(p), col) == Err(FromMessage("ResultSet exhausted"))
  {
  }

  // ---------------------------------------------------------------------------
  // Reading typed values
  // ---------------------------------------------------------------------------

  /** The shape every typed accessor shares: find the cell, answer `None` for
      SQL NULL, otherwise convert the bytes. `convert` stands for the byte
      reinterpretation or the native conversion the accessor uses. */
  function ReadCell<T>(b: Result<(Column, Cell)>, convert: (Column, seq<byte>) -> Result<T>): Result<Option<T>>
  {
    match b
    case Err(e) => Err(e)
    case Ok((column, cell)) =>
      match cell
      case None => Ok(None)
      case Some(bytes) =>
        match convert(column, bytes)
        case Err(e) => Err(e)
        case Ok(v) => Ok(Some(v))
  }

  /** A NULL cell reads as `None` whatever the accessor, and a failed lookup
      is passed through unchanged. */
  lemma NullCellReadsAsNone<T>(b: Result<(Column, Cell)>, convert: (Column, seq<byte>) -> Result<T>)
    ensures b.Ok? && b.value.1.None? ==> ReadCell(b, convert) == Ok(None)
    ensures b.Err? ==> ReadCell(b, convert) == Err(b.error)
    ensures b.Ok? && b.value.1.Some? && convert(b.value.0, b.value.1.value).Ok? ==>
      ReadCell(b, convert) == Ok(Some(convert(b.value.0, b.value.1.value).value))
  {
  }

  /** `get_bool`: the 64-bit reading of the cell, non-zero meaning true. */
  function BoolOf(v: Result<Option<int>>): (r: Result<Option<bool>>)
    ensures r.Ok? <==> v.Ok?
    ensures r.Err? ==> r.error == v.error
    ensures r.Ok? ==> (r.value.Some? <==> v.value.Some?)
    ensures r.Ok? && r.value.Some? ==> (r.value.value <==> v.value.value != 0)
  {
    match v
    case Err(e) => Err(e)
    case Ok(None) => Ok(None)
    case Ok(Some(n)) => Ok(Some(n != 0))
  }

  /** `get_blob` on a binary or image column hands back the fetched bytes
      themselves; other types go through the native conversion. A
      `VARBINARY` column is not implemented in the source (it panics), so the
      model excludes it. */
  function BlobOf(b: Result<(Column, Cell)>, convert: (Column, seq<byte>) -> Result<seq<byte>>): (r: Result<Option<seq<byte>>>)
    requires b.Ok? && b.value.1.Some? ==> !b.value.0.dataType.VarBinaryType?
    ensures b.Err? ==> r == Err(b.error)
    ensures b.Ok? && b.value.1.None? ==> r == Ok(None)
    ensures b.Ok? && b.value.1.Some? && (b.value.0.dataType.BinaryType? || b.value.0.dataType.ImageType?) ==>
      r == Ok(Some(b.value.1.value))
    ensures b.Ok? && b.value.1.Some? && !(b.value.0.dataType.BinaryType? || b.value.0.dataType.ImageType?) ==>
      (r.Ok? <==> convert(b.value.0, b.value.1.value).Ok?)
      && (r.Ok? ==> r.value == Some(convert(b.value.0, b.value.1.value).value))
      && (r.Err? ==> r.error == convert(b.value.0, b.value.1.value).error)
  {
    match b
    case Err(e) => Err(e)
    case Ok((column, cell)) =>
      match cell
      case None => Ok(None)
      case Some(bytes) =>
        if column.dataType.BinaryType? || column.dataType.ImageType? then Ok(Some(bytes))
        else
          match convert(column, bytes)
          case Err(e) => Err(e)
          case Ok(v) => Ok(Some(v))
  }

  /** The destination size `get_string` gives the native conversion for a
      non-character source: room for two hexadecimal digits per byte plus
      16 for binary sources, 128 characters otherwise. */
  function StringBufferSize(t: DataType, len: nat): (n: nat)
    ensures (t.BinaryType? || t.LongBinaryType? || t.ImageType?) ==> n >= 2 * len && n - 2 * len == 16
    ensures !(t.BinaryType? || t.LongBinaryType? || t.ImageType?) ==> n == 128
  {
    if t.BinaryType? || t.LongBinaryType? || t.ImageType? then 2 * len + 16 else 128
  }

  // ---------------------------------------------------------------------------
  // Dates
  // ---------------------------------------------------------------------------

  /** The parts of `CS_DATEREC` a date is built from; the month is 0-based. */
  datatype DateRec = DateRec(dateyear: int, datemonth: int, datedmonth: int)

  /** `x as u32` for an `i32`. */
  function AsU32(x: int): (r: nat)
    ensures r < U32Modulus
    ensures 0 <= x < U32Modulus ==> r == x
  {
    ((x % U32Modulus) + U32Modulus) % U32Modulus
  }

  /** A 32-bit signed value read as unsigned is at most 12 only when it is
      already that non-negative value. */
  lemma SmallU32IsSelf(x: int)
    requires IsI32(x)
    ensures AsU32(x) <= 12 ==> AsU32(x) == x
  {
    if x < 0 {
      assert (x % U32Modulus) == x + U32Modulus;
    }
  }

  predicate IsLeapYear(y: int)
  {
    y % 4 == 0 && (y % 100 != 0 || y % 400 == 0)
  }

  function DaysInMonth(y: int, m: int): int
    requires 1 <= m <= 12
  {
    if m == 2 then (if IsLeapYear(y) then 29 else 28)
    else if m == 4 || m == 6 || m == 9 || m == 11 then 30
    else 31
  }

  /** chrono's `NaiveDate::from_ymd_opt` accepts years from -262144 to
      262143 and the days of the proleptic Gregorian calendar. */
  predicate ValidYmd(y: int, m: int, d: int)
  {
    -262144 <= y <= 262143 && 1 <= m <= 12 && 1 <= d <= DaysInMonth(y, m)
  }

  /** `get_date`: the date of a cracked date record, with the month moved
      from 0-based to 1-based; "Invalid date" when the calendar rejects it. */
  function DateOf(rec: DateRec): (r: Result<ToSql.Date>)
    requires IsI32(rec.datemonth + 1) && IsI32(rec.datedmonth)
    ensures r.Ok? <==> ValidYmd(rec.dateyear, AsU32(rec.datemonth + 1), AsU32(rec.datedmonth))
    ensures r.Ok? ==>
      r.value.year == rec.dateyear && r.value.month == rec.datemonth + 1
      && r.value.day == rec.datedmonth && 0 <= rec.datemonth <= 11
    ensures r.Err? ==> r.error == FromMessage("Invalid date")
  {
    var m := AsU32(rec.datemonth + 1);
    var d := AsU32(rec.datedmonth);
    SmallU32IsSelf(rec.datemonth + 1);
    SmallU32IsSelf(rec.datedmonth);
    if ValidYmd(rec.dateyear, m, d) then Ok(ToSql.Date(rec.dateyear, m, d))
    else Err(FromMessage("Invalid date"))
  }

  // ---------------------------------------------------------------------------
  // The result set
  // ---------------------------------------------------------------------------

  /** `ResultSet`: the items, the item cursor and the diagnostics collected
      while the query ran. */
  class ResultSet {
    var pos: Option<nat>
    var results: seq<SybResult>
    const messages: seq<Error>

    ghost predicate Valid()
      reads this
    {
      forall k :: 0 <= k < |results| && results[k].RowResult? ==> WellFormed(results[k].rows)
    }

    /** `ResultSet::new`: the cursor starts before the first item. */
    constructor (results: seq<SybResult>, messages: seq<Error>)
      requires forall k :: 0 <= k < |results| && results[k].RowResult? ==> WellFormed(results[k].rows)
      ensures Valid()
      ensures this.pos.None? && this.results == results && this.messages == messages
    {
      this.pos := None;
      this.results := results;
      this.messages := messages;
    }

    /** `next_results`: moves to the next item and tells whether there is one. */
    method NextResults() returns (b: bool)
      modifies this
      ensures results == old(results)
      ensures pos == Advance(old(pos), |results|)
      ensures b <==> InRange(pos, |results|)
    {
      match pos {
        case None =>
          if |results| == 0 {
            return false;
          }
          pos := Some(0);
        case Some(p) =>
          pos := Some(p + 1);
      }
      b := pos.value < |results|;
    }

    /** `result_type`: the kind of the current item, `NoResult` before the
        first item and past the last. */
    function ResultType(): (t: ResultType)
      reads this
      ensures t == NoResult <==> !InRange(pos, |results|)
      ensures InRange(pos, |results|) ==> t == KindOf(results[pos.value])
    {
      match pos
      case None => NoResult
      case Some(p) => if p < |results| then KindOf(results[p]) else NoResult
    }

    /** `next_results_of_type`: moves to the next item of kind `t`. It
        answers true exactly when it stops on such an item, which is then the
        first one after the old position; otherwise there is none left and
        the cursor ends past the last item. */
    method NextResultsOfType(t: ResultType) returns (b: bool)
      modifies this
      ensures results == old(results)
      ensures b ==> ResultType() == t
      ensures b ==> InRange(pos, |results|)
      ensures var start := if old(pos).None? then 0 else old(pos).value + 1;
        b ==> start <= pos.value && forall j :: start <= j < pos.value ==> KindOf(results[j]) != t
      ensures var start := if old(pos).None? then 0 else old(pos).value + 1;
        !b ==> !InRange(pos, |results|) && forall j :: start <= j < |results| ==> KindOf(results[j]) != t
      ensures var start := if old(pos).None? then 0 else old(pos).value + 1;
        !b ==> pos == (if old(pos).None? && |results| == 0 then None
                       else Some(if start > |results| then start else |results|))
    {
      ghost var start := if pos.None? then 0 else pos.value + 1;
      b := NextResults();
      if !b {
        return;
      }
      while ResultType() != t
        invariant results == old(results)
        invariant b && InRange(pos, |results|) && start <= pos.value
        invariant forall j :: start <= j < pos.value ==> KindOf(results[j]) != t
        decreases |results| - pos.value
      {
        b := NextResults();
        if !b {
          return;
        }
      }
    }

    /** The seek helpers (`next_row_result`, `next_status_result`,
        `next_update_count_result`): the cursor moves to the first item of
        kind `t`, or one past the last item when there is none. They are only
        used before the first move, where the position they count from is 0. */
    method SeekFirst(t: ResultType) returns (found: Option<nat>)
      requires pos.None?
      modifies this
      ensures results == old(results)
      ensures pos == Some(FirstOf(results, t))
      ensures found == (if FirstOf(results, t) < |results| then pos else None)
    {
      var i := 0;
      while i < |results|
        invariant 0 <= i <= |results|
        invariant forall j :: 0 <= j < i ==> KindOf(results[j]) != t
      {
        if KindOf(results[i]) == t {
          pos := Some(i);
          found := pos;
          return;
        }
        i := i + 1;
      }
      pos := Some(|results|);
      found := None;
    }

    /** `next`: on the first call moves to the first row set; then advances
        the row cursor of the current row set and tells whether it stands on
        a row. On any other item, or past the end, it changes nothing. */
    method Next() returns (b: bool)
      requires Valid()
      modifies this
      ensures Valid()
      ensures pos == (if old(pos).None? then Some(FirstOf(old(results), RowsKind)) else old(pos))
      ensures RowsAt(old(results), pos.value).Ok? ==>
        results == old(results)[pos.value := RowResult(RowAdvance(old(results)[pos.value].rows))]
        && (b <==> HasRow(results[pos.value].rows))
      ensures RowsAt(old(results), pos.value).Err? ==> results == old(results) && !b
    {
      if pos.None? {
        var found := SeekFirst(RowsKind);
        if found.None? {
          return false;
        }
      }
      var p := pos.value;
      if p < |results| && results[p].RowResult? {
        var rows := results[p].rows;
        if |rows.rows| == 0 {
          rows := rows.(pos := Some(0));
          results := results[p := RowResult(rows)];
          return false;
        }
        match rows.pos {
          case Some(r) =>
            rows := rows.(pos := Some(r + 1));
          case None =>
            rows := rows.(pos := Some(0));
        }
        results := results[p := RowResult(rows)];
        b := rows.pos.value < |rows.rows|;
      } else {
        b := false;
      }
    }

    function PosOrZero(): nat
      reads this
    {
      if pos.None? then 0 else pos.value
    }

    /** `is_rows`: whether the current item (the first one before any move)
        is a row set. The source indexes without a check, so the item must exist. */
    function IsRows(): (r: bool)
      reads this
      requires PosOrZero() < |results|
      ensures r <==> KindOf(results[PosOrZero()]) == RowsKind
    {
      results[PosOrZero()].RowResult?
    }

    /** `is_status`. */
    function IsStatus(): (r: bool)
      reads this
      requires PosOrZero() < |results|
      ensures r <==> KindOf(results[PosOrZero()]) == StatusKind
    {
      results[PosOrZero()].Status?
    }

    /** `is_update_count`. */
    function IsUpdateCount(): (r: bool)
      reads this
      requires PosOrZero() < |results|
      ensures r <==> KindOf(results[PosOrZero()]) == UpdateCountKind
    {
      results[PosOrZero()].UpdateCount?
    }

    /** Once the cursor has moved, exactly one of the `is_*` tests holds and
        it agrees with `result_type`. */
    lemma IsTestsAgreeWithResultType()
      requires pos.Some? && pos.value < |results|
      ensures IsRows() <==> ResultType() == RowsKind
      ensures IsStatus() <==> ResultType() == StatusKind
      ensures IsUpdateCount() <==> ResultType() == UpdateCountKind
      ensures IsRows() || IsStatus() || IsUpdateCount()
      ensures !(IsRows() && IsStatus()) && !(IsRows() && IsUpdateCount()) && !(IsStatus() && IsUpdateCount())
    {
    }

    /** `column_count`: on the first call seeks the first row set ("Query did
        not return rows" when there is none), then counts the columns of the
        current row set. */
    method ColumnCount() returns (r: Result<nat>)
      modifies this
      ensures results == old(results)
      ensures pos == (if old(pos).None? then Some(FirstOf(results, RowsKind)) else old(pos))
      ensures old(pos).None? && FirstOf(results, RowsKind) == |results| ==>
        r == Err(FromMessage("Query did not return rows"))
      ensures !(old(pos).None? && FirstOf(results, RowsKind) == |results|) ==>
        r == (match RowsAt(results, pos.value) case Ok(rows) => Ok(|rows.columns|) case Err(e) => Err(e))
    {
      if pos.None? {
        var found := SeekFirst(RowsKind);
        if found.None? {
          return Err(FromMessage("Query did not return rows"));
        }
      }
      match RowsAt(results, pos.value) {
        case Ok(rows) => r := Ok(|rows.columns|);
        case Err(e) => r := Err(e);
      }
    }

    /** `column_name`: like `column_count`, then the name of column `index`,
        "Invalid column index" past the last column. */
    method ColumnName(index: nat) returns (r: Result<string>)
      modifies this
      ensures results == old(results)
      ensures pos == (if old(pos).None? then Some(FirstOf(results, RowsKind)) else old(pos))
      ensures old(pos).None? && FirstOf(results, RowsKind) == |results| ==>
        r == Err(FromMessage("Query did not return rows"))
      ensures !(old(pos).None? && FirstOf(results, RowsKind) == |results|) ==>
        r == (match RowsAt(results, pos.value)
              case Ok(rows) =>
                if index < |rows.columns| then Ok(rows.columns[index].name)
                else Err(FromMessage("Invalid column index"))
              case Err(e) => Err(e))
    {
      if pos.None? {
        var found := SeekFirst(RowsKind);
        if found.None? {
          return Err(FromMessage("Query did not return rows"));
        }
      }
      match RowsAt(results, pos.value) {
        case Ok(rows) =>
          if index < |rows.columns| {
            r := Ok(rows.columns[index].name);
          } else {
            r := Err(FromMessage("Invalid column index"));
          }
        case Err(e) =>
          r := Err(e);
      }
    }

    /** `get_buffer`: the current cell of column `col`. */
    function GetBuffer(col: ColumnId): (r: Result<(Column, Cell)>)
      reads this
      requires Valid()
    {
      BufferAt(results, pos, col)
    }

    /** `get_bool`, given how the cell reads as a 64-bit integer. */
    function GetBool(col: ColumnId, asI64: (Column, seq<byte>) -> Result<int>): (r: Result<Option<bool>>)
      reads this
      requires Valid()
    {
      BoolOf(ReadCell(GetBuffer(col), asI64))
    }

    /** `status`: on the first call seeks the first status item; answers the
        current item's status code, or why there is none. */
    method Status() returns (r: Result<int>)
      modifies this
      ensures results == old(results)
      ensures pos == (if old(pos).None? then Some(FirstOf(results, StatusKind)) else old(pos))
      ensures old(pos).None? && FirstOf(results, StatusKind) == |results| ==>
        r == Err(FromMessage("Current ResultSet does not contain any status result"))
      ensures !(old(pos).None? && FirstOf(results, StatusKind) == |results|) ==>
        r == (if pos.value >= |results| then Err(FromMessage("Invalid state"))
              else if results[pos.value].Status? then Ok(results[pos.value].status)
              else Err(FromMessage("ResultSet does not currently point to a status result")))
    {
      if pos.None? {
        var found := SeekFirst(StatusKind);
        if found.None? {
          return Err(FromMessage("Current ResultSet does not contain any status result"));
        }
      }
      var p := pos.value;
      if p >= |results| {
        r := Err(FromMessage("Invalid state"));
      } else if results[p].Status? {
        r := Ok(results[p].status);
      } else {
        r := Err(FromMessage("ResultSet does not currently point to a status result"));
      }
    }

    /** `update_count`: the same as `status` for update counts. */
    method UpdateCount() returns (r: Result<int>)
      modifies this
      ensures results == old(results)
      ensures pos == (if old(pos).None? then Some(FirstOf(results, UpdateCountKind)) else old(pos))
      ensures old(pos).None? && FirstOf(results, UpdateCountKind) == |results| ==>
        r == Err(FromMessage("Current ResultSet does not contain any update count result"))
      ensures !(old(pos).None? && FirstOf(results, UpdateCountKind) == |results|) ==>
        r == (if pos.value >= |results| then Err(FromMessage("Invalid state"))
              else if results[pos.value].UpdateCount? then Ok(results[pos.value].count)
              else Err(FromMessage("ResultSet does not currently point to an update count result")))
    {
      if pos.None? {
        var found := SeekFirst(UpdateCountKind);
        if found.None? {
          return Err(FromMessage("Current ResultSet does not contain any update count result"));
        }
      }
      var p := pos.value;
      if p >= |results| {
        r := Err(FromMessage("Invalid state"));
      } else if results[p].UpdateCount? {
        r := Ok(results[p].count);
      } else {
        r := Err(FromMessage("ResultSet does not currently point to an update count result"));
      }
    }

    /** `messages`: every diagnostic collected, in order. */
    function Messages(): (m: seq<Error>)
      reads this
      ensures m == messages
    {
      messages
    }

    /** `error`: the first diagnostic collected, if any. */
    function Error(): (e: Option<Error>)
      reads this
      ensures e.Some? <==> |messages| > 0
      ensures e.Some? ==> e.value == messages[0]
    {
      if |messages| == 0 then None else Some(messages[0])
    }
  }
}
