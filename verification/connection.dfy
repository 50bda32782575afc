/** The connection: sending a query, collecting what the server answers into a
    result set, turning fetched column buffers into cells, the diagnostics
    store, and choosing the server address (src/connection.rs). The native
    client library is not modelled; what it reports arrives as plain data. */
module Connections {
  import opened Common
  import opened ToSql
  import opened Lib
  import opened ResultSets
  import Statements

  // ---------------------------------------------------------------------------
  // Fetching rows
  // ---------------------------------------------------------------------------

  /** A column's format as the library describes it. */
  datatype ColumnFormat = ColumnFormat(name: string, dataType: DataType, maxlength: int)

  /** `Bind` after a fetch: the column buffer, the length the library
      reported and its indicator. */
  datatype Bind = Bind(buffer: seq<byte>, dataLength: int, indicator: int)

  /** The column as `fetch_result` keeps it: character columns get one more
      byte, for the terminating zero the library writes. */
  function Adjusted(f: ColumnFormat): (c: Column)
    ensures c.name == f.name && c.dataType == f.dataType
    ensures IsCharacter(f.dataType) ==> c.maxlength == f.maxlength + 1
    ensures !IsCharacter(f.dataType) ==> c.maxlength == f.maxlength
  {
    Column(f.name, f.dataType, if IsCharacter(f.dataType) then f.maxlength + 1 else f.maxlength)
  }

  function AdjustedAll(formats: seq<ColumnFormat>): (cs: seq<Column>)
    ensures |cs| == |formats|
  {
    if formats == [] then [] else AdjustedAll(formats[..|formats| - 1]) + [Adjusted(formats[|formats| - 1])]
  }

  lemma {:induction false} AdjustedAllAt(formats: seq<ColumnFormat>, k: nat)
    requires k < |formats|
    ensures AdjustedAll(formats)[k] == Adjusted(formats[k])
  {
    if k < |formats| - 1 {
      AdjustedAllAt(formats[..|formats| - 1], k);
    }
  }

  /** What the library may leave in a bind: a buffer of the column's size,
      and for a complete value (indicator 0) a length within the buffer that,
      for a character column, counts the terminating zero. The source slices
      without checks, so anything else panics there. */
  predicate ValidBind(c: Column, b: Bind)
  {
    |b.buffer| == c.maxlength
    && (b.indicator == 0 ==> 0 <= b.dataLength <= |b.buffer| && (IsCharacter(c.dataType) ==> b.dataLength >= 1))
  }

  predicate Truncated(b: Bind)
  {
    b.indicator != -1 && b.indicator != 0
  }

  /** One cell of a fetched row: NULL for indicator -1, the reported bytes
      (without the terminating zero of a character column) for indicator 0,
      and a truncation error for any other indicator. */
  function CellOf(c: Column, b: Bind): (r: Result<Cell>)
    requires ValidBind(c, b)
    ensures r.Err? <==> Truncated(b)
    ensures r.Err? ==> r.error == FromMessage("Data truncation occured")
    ensures r.Ok? ==> (r.value.None? <==> b.indicator == -1)
    ensures r.Ok? && r.value.Some? ==>
      |r.value.value| == b.dataLength - (if IsCharacter(c.dataType) then 1 else 0)
      && r.value.value == b.buffer[..|r.value.value|]
  {
    if b.indicator == -1 then Ok(None)
    else if b.indicator == 0 then
      Ok(Some(if IsCharacter(c.dataType) then b.buffer[..b.dataLength - 1] else b.buffer[..b.dataLength]))
    else Err(FromMessage("Data truncation occured"))
  }

  /** One bind per column, each as the library may leave it. */
  predicate BindsFit(columns: seq<Column>, binds: seq<Bind>)
  {
    |binds| == |columns| && forall k :: 0 <= k < |columns| ==> ValidBind(columns[k], binds[k])
  }

  /** The cells of one fetched row, or the first truncation error. */
  function RowOf(columns: seq<Column>, binds: seq<Bind>): (r: Result<seq<Cell>>)
    requires BindsFit(columns, binds)
    ensures r.Ok? ==> |r.value| == |columns|
    ensures r.Err? ==> r.error == FromMessage("Data truncation occured")
  {
    if columns == [] then Ok([])
    else
      var n := |columns| - 1;
      match RowOf(columns[..n], binds[..n])
      case Err(e) => Err(e)
      case Ok(cells) =>
        match CellOf(columns[n], binds[n])
        case Err(e) => Err(e)
        case Ok(cell) => Ok(cells + [cell])
  }

  /** Cell `k` of a fetched row is what its bind holds, read as `CellOf`. */
  lemma {:induction false} RowOfAt(columns: seq<Column>, binds: seq<Bind>, k: nat)
    requires BindsFit(columns, binds) && k < |columns| && RowOf(columns, binds).Ok?
    ensures CellOf(columns[k], binds[k]).Ok?
    ensures RowOf(columns, binds).value[k] == CellOf(columns[k], binds[k]).value
  {
    var n := |columns| - 1;
    if k < n {
      RowOfAt(columns[..n], binds[..n], k);
    }
  }

  /** A row fails exactly when one of its cells was truncated. */
  lemma {:induction false} RowFailsOnTruncation(columns: seq<Column>, binds: seq<Bind>)
    requires BindsFit(columns, binds)
    ensures RowOf(columns, binds).Err? <==> exists k :: 0 <= k < |binds| && Truncated(binds[k])
  {
    if columns != [] {
      var n := |columns| - 1;
      RowFailsOnTruncation(columns[..n], binds[..n]);
      if exists k :: 0 <= k < n && Truncated(binds[..n][k]) {
        var k :| 0 <= k < n && Truncated(binds[..n][k]);
        assert Truncated(binds[k]);
      }
      if exists k :: 0 <= k < |binds| && Truncated(binds[k]) {
        var k :| 0 <= k < |binds| && Truncated(binds[k]);
        if k < n {
          assert Truncated(binds[..n][k]);
        }
      }
    }
  }

  predicate ValidFetch(columns: seq<Column>, fetched: seq<seq<Bind>>)
  {
    forall f :: 0 <= f < |fetched| ==>
      BindsFit(columns, fetched[f])
  }

  /** All fetched rows, or the first truncation error. */
  function RowsOf(columns: seq<Column>, fetched: seq<seq<Bind>>): (r: Result<seq<seq<Cell>>>)
    requires ValidFetch(columns, fetched)
    ensures r.Ok? ==> |r.value| == |fetched| && forall f :: 0 <= f < |r.value| ==> |r.value[f]| == |columns|
    ensures r.Err? ==> r.error == FromMessage("Data truncation occured")
  {
    if fetched == [] then Ok([])
    else
      var n := |fetched| - 1;
      match RowsOf(columns, fetched[..n])
      case Err(e) => Err(e)
      case Ok(rows) =>
        match RowOf(columns, fetched[n])
        case Err(e) => Err(e)
        case Ok(row) => Ok(rows + [row])
  }

  /** Row `f` of the fetched rows is the row its binds give. */
  lemma {:induction false} RowsOfAt(columns: seq<Column>, fetched: seq<seq<Bind>>, f: nat)
    requires ValidFetch(columns, fetched) && f < |fetched| && RowsOf(columns, fetched).Ok?
    ensures RowOf(columns, fetched[f]).Ok?
    ensures RowsOf(columns, fetched).value[f] == RowOf(columns, fetched[f]).value
  {
    var n := |fetched| - 1;
    if f < n {
      RowsOfAt(columns, fetched[..n], f);
    }
  }

  /** A fetch fails exactly when some cell of some row was truncated. */
  lemma {:induction false} FetchFailsOnTruncation(columns: seq<Column>, fetched: seq<seq<Bind>>)
    requires ValidFetch(columns, fetched)
    ensures RowsOf(columns, fetched).Err? <==>
      exists f, k :: 0 <= f < |fetched| && 0 <= k < |columns| && Truncated(fetched[f][k])
  {
    if fetched != [] {
      var n := |fetched| - 1;
      FetchFailsOnTruncation(columns, fetched[..n]);
      if RowsOf(columns, fetched).Err? {
        if RowsOf(columns, fetched[..n]).Ok? {
          RowFailsOnTruncation(columns, fetched[n]);
          var k :| 0 <= k < |fetched[n]| && Truncated(fetched[n][k]);
          assert Truncated(fetched[n][k]);
        }
      } else {
        forall f, k | 0 <= f < |fetched| && 0 <= k < |columns|
          ensures !Truncated(fetched[f][k])
        {
          if f == n {
            RowFailsOnTruncation(columns, fetched[n]);
            assert RowOf(columns, fetched[n]).Ok?;
          } else {
            assert fetched[f] == fetched[..n][f];
          }
        }
      }
    }
  }

  /** What one `fetch_result` call gets from the library: the described
      columns; the error of a failing `describe` or `bind`, which ends the
      call before any fetch; per fetched row the state of every bind; and
      how the fetching stopped: `None` when the fetch reported the end of
      the data, the error when a fetch failed. */
  datatype FetchInput = FetchInput(
    formats: seq<ColumnFormat>,
    setupFailure: Option<Error>,
    fetched: seq<seq<Bind>>,
    fetchFailure: Option<Error>)

  predicate ValidInput(input: FetchInput)
  {
    ValidFetch(AdjustedAll(input.formats), input.fetched)
  }

  /** The row set a fetch produces, with its row cursor before the first row.
      A failing describe or bind comes before any row; a truncated cell stops
      the fetching before the fetch failure that would end it. */
  function FetchedRows(input: FetchInput): (r: Result<Rows>)
    requires ValidInput(input)
    ensures r.Ok? ==>
      WellFormed(r.value) && r.value.pos.None? && |r.value.rows| == |input.fetched|
      && r.value.columns == AdjustedAll(input.formats)
  {
    var columns := AdjustedAll(input.formats);
    if input.setupFailure.Some? then Err(input.setupFailure.value)
    else
      match RowsOf(columns, input.fetched)
      case Err(e) => Err(e)
      case Ok(rows) =>
        if input.fetchFailure.Some? then Err(input.fetchFailure.value) else Ok(Rows(columns, rows, None))
  }

  /** Every cell of a fetched row set is its bind read as `CellOf`, under
      the adjusted column. */
  lemma FetchedCellAt(input: FetchInput, f: nat, k: nat)
    requires ValidInput(input) && FetchedRows(input).Ok?
    requires f < |input.fetched| && k < |input.formats|
    ensures FetchedRows(input).value.columns[k] == Adjusted(input.formats[k])
    ensures CellOf(Adjusted(input.formats[k]), input.fetched[f][k]).Ok?
    ensures FetchedRows(input).value.rows[f][k] == CellOf(Adjusted(input.formats[k]), input.fetched[f][k]).value
  {
    var columns := AdjustedAll(input.formats);
    AdjustedAllAt(input.formats, k);
    RowsOfAt(columns, input.fetched, f);
    RowOfAt(columns, input.fetched[f], k);
  }

  /** A fetch fails exactly when describing or binding failed, a cell was
      truncated, or a fetch failed; the errors win in that order. */
  lemma FetchOutcome(input: FetchInput)
    requires ValidInput(input)
    ensures FetchedRows(input).Err? <==>
      (exists f, k :: 0 <= f < |input.fetched| && 0 <= k < |input.formats| && Truncated(input.fetched[f][k]))
      || input.setupFailure.Some? || input.fetchFailure.Some?
    ensures FetchedRows(input).Err? ==>
      FetchedRows(input).error ==
        if input.setupFailure.Some? then input.setupFailure.value
        else if RowsOf(AdjustedAll(input.formats), input.fetched).Err? then FromMessage("Data truncation occured")
        else input.fetchFailure.value
  {
    FetchFailsOnTruncation(AdjustedAll(input.formats), input.fetched);
  }

  /** `fetch_result`: describes every column (adjusting character columns)
      and sizes its buffer, then turns each fetched row into cells. */
  method FetchResult(input: FetchInput) returns (r: Result<Rows>, bufferSizes: seq<int>)
    requires ValidInput(input)
    ensures |bufferSizes| == |input.formats|
    ensures forall k :: 0 <= k < |input.formats| ==> bufferSizes[k] == Adjusted(input.formats[k]).maxlength
    ensures r == FetchedRows(input)
  {
    var columns;
    columns, bufferSizes := DescribeColumns(input.formats);
    if input.setupFailure.Some? {
      return Err(input.setupFailure.value), bufferSizes;
    }
    var fetched := input.fetched;
    var rows: seq<seq<Cell>> := [];
    for f := 0 to |fetched|
      invariant RowsOf(columns, fetched[..f]) == Ok(rows)
    {
      assert fetched[..f + 1][..f] == fetched[..f];
      var row := FetchRow(columns, fetched[f]);
      if row.Err? {
        TruncationStops(columns, fetched, f + 1);
        return Err(row.error), bufferSizes;
      }
      rows := rows + [row.value];
    }
    assert fetched[..|fetched|] == fetched;
    if input.fetchFailure.Some? {
      return Err(input.fetchFailure.value), bufferSizes;
    }
    r := Ok(Rows(columns, rows, None));
  }

  /** The first loop of `fetch_result`: one column and one buffer per
      described format. */
  method DescribeColumns(formats: seq<ColumnFormat>) returns (columns: seq<Column>, bufferSizes: seq<int>)
    ensures columns == AdjustedAll(formats)
    ensures |bufferSizes| == |formats|
    ensures forall k :: 0 <= k < |formats| ==> bufferSizes[k] == Adjusted(formats[k]).maxlength
  {
    columns := [];
    bufferSizes := [];
    for c := 0 to |formats|
      invariant columns == AdjustedAll(formats[..c])
      invariant |bufferSizes| == c
      invariant forall k :: 0 <= k < c ==> bufferSizes[k] == Adjusted(formats[k]).maxlength
    {
      assert formats[..c + 1][..c] == formats[..c];
      var column := Adjusted(formats[c]);
      columns := columns + [column];
      bufferSizes := bufferSizes + [column.maxlength];
    }
    assert formats[..|formats|] == formats;
  }

  /** The inner loop of `fetch_result`: one cell per column. */
  method FetchRow(columns: seq<Column>, binds: seq<Bind>) returns (r: Result<seq<Cell>>)
    requires BindsFit(columns, binds)
    ensures r == RowOf(columns, binds)
  {
    var cells: seq<Cell> := [];
    for k := 0 to |columns|
      invariant RowOf(columns[..k], binds[..k]) == Ok(cells)
    {
      assert columns[..k + 1][..k] == columns[..k];
      assert binds[..k + 1][..k] == binds[..k];
      var b := binds[k];
      if b.indicator == -1 {
        cells := cells + [None];
      } else if b.indicator == 0 {
        var len := b.dataLength;
        if IsCharacter(columns[k].dataType) {
          cells := cells + [Some(b.buffer[..len - 1])];
        } else {
          cells := cells + [Some(b.buffer[..len])];
        }
      } else {
        RowErrorSticks(columns, binds, k + 1);
        return Err(FromMessage("Data truncation occured"));
      }
    }
    assert columns[..|columns|] == columns;
    assert binds[..|binds|] == binds;
    r := Ok(cells);
  }

  lemma {:induction false} RowErrorSticks(columns: seq<Column>, binds: seq<Bind>, k: nat)
    requires BindsFit(columns, binds) && k <= |columns|
    requires RowOf(columns[..k], binds[..k]).Err?
    ensures RowOf(columns, binds) == RowOf(columns[..k], binds[..k])
  {
    if k < |columns| {
      var n := |columns| - 1;
      assert columns[..n][..k] == columns[..k];
      assert binds[..n][..k] == binds[..k];
      RowErrorSticks(columns[..n], binds[..n], k);
      assert RowOf(columns[..n], binds[..n]).Err?;
    } else {
      assert columns[..k] == columns;
      assert binds[..k] == binds;
    }
  }

  lemma {:induction false} TruncationStops(columns: seq<Column>, fetched: seq<seq<Bind>>, f: nat)
    requires ValidFetch(columns, fetched) && f <= |fetched|
    requires RowsOf(columns, fetched[..f]).Err?
    ensures RowsOf(columns, fetched) == RowsOf(columns, fetched[..f])
  {
    if f < |fetched| {
      var n := |fetched| - 1;
      assert fetched[..n][..f] == fetched[..f];
      TruncationStops(columns, fetched[..n], f);
    } else {
      assert fetched[..f] == fetched;
    }
  }

  // ---------------------------------------------------------------------------
  // Executing a query
  // ---------------------------------------------------------------------------

  /** `CS_NO_COUNT`, the row count the library reports when there is none. */
  const NoCount: int := -1

  /** What `results()` reports, one call at a time. */
  datatype ResultKind =
    | RowResultKind(fetch: FetchInput)
    | StatusResultKind(fetch: FetchInput)
    | ComputeResultKind | CursorResultKind | ParamResultKind
    | CmdFail
    | CmdSucceed(rowCount: int)
    | CmdDone(rowCount: int)
    | OtherKind(code: int)

  /** One successful `results()` call: the kind of result and the
      diagnostics the store held right after it. */
  datatype Step = Step(kind: ResultKind, diagnostics: seq<Error>)

  /** The library's whole answer to one command: whether sending it failed,
      the successful `results()` calls, and how the last call ended (`None`
      when it reported no more results, an error when it failed). */
  datatype Reply = Reply(sendError: Option<Error>, steps: seq<Step>, end: Option<Error>)

  predicate ValidStep(s: Step)
  {
    match s.kind
    case RowResultKind(input) => ValidInput(input)
    case StatusResultKind(input) =>
      ValidInput(input) && (FetchedRows(input).Ok? ==> StatusRow(FetchedRows(input).value))
    case CmdSucceed(n) => IsI32(n)
    case CmdDone(n) => IsI32(n)
    case _ => true
  }

  /** A status result's rows as the source reads them: the first cell of
      the first row holds at least the 4 bytes it reads; the source panics
      on a missing row or a NULL cell. */
  predicate StatusRow(rows: Rows)
  {
    |rows.rows| > 0 && |rows.rows[0]| > 0 && rows.rows[0][0].Some? && |rows.rows[0][0].value| >= 4
  }

  /** The `i32` stored in 4 bytes, least significant first, as a
      little-endian host reads it. */
  function LeI32(b: seq<byte>): (r: int)
    requires |b| == 4
    ensures IsI32(r)
    ensures r < 0 <==> b[3] >= 128
    ensures r % 256 == b[0]
  {
    var u: int := b[0] as int + 256 * (b[1] as int) + 65536 * (b[2] as int) + 16777216 * (b[3] as int);
    if u >= 0x8000_0000 then u - U32Modulus else u
  }

  /** The 4 bytes, least significant first, that store the `i32` `x`. */
  function LeBytes(x: int): (b: seq<byte>)
    requires IsI32(x)
    ensures |b| == 4
  {
    var u := if x < 0 then x + U32Modulus else x;
    [u % 256, (u / 256) % 256, (u / 65536) % 256, u / 16777216]
  }

  /** Reading back the bytes that store a status gives the status. */
  lemma StatusBytesRoundTrip(x: int)
    requires IsI32(x)
    ensures LeI32(LeBytes(x)) == x
  {
    var u := if x < 0 then x + U32Modulus else x;
    assert u == u % 256 + 256 * ((u / 256) % 256) + 65536 * ((u / 65536) % 256) + 16777216 * (u / 16777216);
  }

  /** The status code a status result carries. */
  function StatusOf(rows: Rows): (status: int)
    requires StatusRow(rows)
    ensures IsI32(status)
  {
    LeI32(rows.rows[0][0].value[..4])
  }

  predicate ValidReply(reply: Reply)
  {
    forall k :: 0 <= k < |reply.steps| ==> ValidStep(reply.steps[k])
  }

  /** How a success or done result's row count becomes an update count.
      `execute` reads an `i32`, skips the no-count value and widens the rest
      with `as u64`; `execute_statement`, as written, reads the count as a
      `u64` and keeps every one. The library stores a 4-byte count into
      that zeroed 8-byte buffer, which a little-endian host reads back as
      the count modulo 2^32. */
  datatype CountRule = Filtered | Unfiltered

  function AsU64(x: int): (r: nat)
    requires IsI32(x)
    ensures r < U64Modulus
    ensures x >= 0 ==> r == x
    ensures x < 0 ==> r == x + U64Modulus && r >= U64Modulus - 0x8000_0000
  {
    if x < 0 then x + U64Modulus else x
  }

  function CountItems(n: int, rule: CountRule): (items: seq<SybResult>)
    requires IsI32(n)
  {
    match rule
    case Filtered => if n != NoCount then [UpdateCount(AsU64(n))] else []
    case Unfiltered => [UpdateCount(if n < 0 then n + U32Modulus else n)]
  }

  /** What the collecting loop has gathered so far. */
  datatype Collected = Collected(results: seq<SybResult>, failed: bool, errors: seq<Error>)

  /** One turn of the collecting loop: the diagnostics are appended first,
      then the result is classified. */
  function StepInto(c: Collected, s: Step, rule: CountRule): Result<Collected>
    requires ValidStep(s)
  {
    var c := c.(errors := c.errors + s.diagnostics);
    match s.kind
    case RowResultKind(input) =>
      (match FetchedRows(input)
       case Err(e) => Err(e)
       case Ok(rows) => Ok(c.(results := c.results + [RowResult(rows)])))
    case StatusResultKind(input) =>
      (match FetchedRows(input)
       case Err(e) => Err(e)
       case Ok(rows) =>
         var status := StatusOf(rows);
         Ok(c.(results := c.results + [Status(status)], failed := c.failed || status != 0)))
    case CmdFail => Ok(c.(failed := true))
    case CmdSucceed(n) => Ok(c.(results := c.results + CountItems(n, rule)))
    case CmdDone(n) => Ok(c.(results := c.results + CountItems(n, rule)))
    case _ => Ok(c)
  }

  /** The loop over the successful `results()` calls; a failed fetch ends it. */
  function CollectSteps(steps: seq<Step>, rule: CountRule): Result<Collected>
    requires forall k :: 0 <= k < |steps| ==> ValidStep(steps[k])
  {
    if steps == [] then Ok(Collected([], false, []))
    else
      match CollectSteps(steps[..|steps| - 1], rule)
      case Err(e) => Err(e)
      case Ok(c) => StepInto(c, steps[|steps| - 1], rule)
  }

  /** After the loop: a failed `results()` call is an error; a failure seen
      on the way is reported as the last diagnostic collected or, with none,
      as a generic message; otherwise the items and diagnostics make the
      result set. */
  function Finish(collected: Result<Collected>, end: Option<Error>): Result<Collected>
  {
    match collected
    case Err(e) => Err(e)
    case Ok(c) =>
      if end.Some? then Err(end.value)
      else if c.failed then
        (if c.errors == [] then Err(FromMessage("Query execution resulted in error"))
         else Err(c.errors[|c.errors| - 1]))
      else Ok(c)
  }

  /** The outcome of sending a command and reading its reply. */
  function Outcome(reply: Reply, rule: CountRule): Result<Collected>
    requires ValidReply(reply)
  {
    if reply.sendError.Some? then Err(reply.sendError.value)
    else Finish(CollectSteps(reply.steps, rule), reply.end)
  }

  lemma {:induction false} CollectErrorSticks(steps: seq<Step>, rule: CountRule, i: nat)
    requires forall k :: 0 <= k < |steps| ==> ValidStep(steps[k])
    requires i <= |steps| && CollectSteps(steps[..i], rule).Err?
    ensures CollectSteps(steps, rule) == CollectSteps(steps[..i], rule)
  {
    if i < |steps| {
      var n := |steps| - 1;
      assert steps[..n][..i] == steps[..i];
      CollectErrorSticks(steps[..n], rule, i);
    } else {
      assert steps[..i] == steps;
    }
  }

  /** The collecting loop shared by `execute` and `execute_statement`. */
  method CollectResults(steps: seq<Step>, rule: CountRule) returns (r: Result<Collected>)
    requires forall k :: 0 <= k < |steps| ==> ValidStep(steps[k])
    ensures r == CollectSteps(steps, rule)
  {
    var c := Collected([], false, []);
    for i := 0 to |steps|
      invariant CollectSteps(steps[..i], rule) == Ok(c)
    {
      assert steps[..i + 1][..i] == steps[..i];
      var next := CollectStep(c, steps[i], rule);
      if next.Err? {
        CollectErrorSticks(steps, rule, i + 1);
        return next;
      }
      c := next.value;
    }
    assert steps[..|steps|] == steps;
    r := Ok(c);
  }

  /** One turn of the loop: append the step's diagnostics, then classify. */
  method CollectStep(c: Collected, s: Step, rule: CountRule) returns (r: Result<Collected>)
    requires ValidStep(s)
    ensures r == StepInto(c, s, rule)
  {
    var results := c.results;
    var failed := c.failed;
    var errors := c.errors + s.diagnostics;
    match s.kind {
      case RowResultKind(input) =>
        var rows, _ := FetchResult(input);
        if rows.Err? {
          return Err(rows.error);
        }
        results := results + [RowResult(rows.value)];
      case StatusResultKind(input) =>
        var rows, _ := FetchResult(input);
        if rows.Err? {
          return Err(rows.error);
        }
        var cell := rows.value.rows[0][0].value;
        var status := LeI32(cell[..4]);
        results := results + [Status(status)];
        if status != 0 {
          failed := true;
        }
      case ComputeResultKind =>
      case CursorResultKind =>
      case ParamResultKind =>
      case CmdFail =>
        failed := true;
      case CmdSucceed(n) =>
        results := results + CountItems(n, rule);
      case CmdDone(n) =>
        results := results + CountItems(n, rule);
      case OtherKind(_) =>
    }
    r := Ok(Collected(results, failed, errors));
  }

  /** Sends a command and reads the reply into a result set. */
  method Run(reply: Reply, rule: CountRule) returns (r: Result<ResultSet>)
    requires ValidReply(reply)
    ensures r.Ok? <==> Outcome(reply, rule).Ok?
    ensures r.Err? ==> r.error == Outcome(reply, rule).error
    ensures r.Ok? ==>
      fresh(r.value) && r.value.Valid() && r.value.pos.None?
      && r.value.results == Outcome(reply, rule).value.results
      && r.value.messages == Outcome(reply, rule).value.errors
  {
    if reply.sendError.Some? {
      return Err(reply.sendError.value);
    }
    var collected := CollectResults(reply.steps, rule);
    match collected {
      case Err(e) =>
        return Err(e);
      case Ok(c) =>
        if reply.end.Some? {
          return Err(reply.end.value);
        }
        if c.failed {
          if c.errors == [] {
            return Err(FromMessage("Query execution resulted in error"));
          }
          return Err(c.errors[|c.errors| - 1]);
        }
        CollectedRowsWellFormed(reply.steps, rule);
        var rs := new ResultSet(c.results, c.errors);
        r := Ok(rs);
    }
  }

  /** `execute`: splits the text; refuses, before sending anything, a
      number of arguments different from the number of placeholders;
      otherwise sends the generated SQL and reads the reply. */
  method Execute(text: string, args: seq<SqlValue>, reply: Reply)
    returns (q: ParsedQuery, sent: Option<string>, r: Result<ResultSet>)
    requires ValidReply(reply)
    ensures Parses(Sql, text, q)
    ensures |q.params| != |args| ==> sent.None? && r == Err(FromMessage("Invalid parameter count"))
    ensures |q.params| == |args| ==>
      sent == Some(Fill(q.pieces, Substitutions(args, |args|)))
      && (r.Ok? <==> Outcome(reply, Filtered).Ok?)
      && (r.Err? ==> r.error == Outcome(reply, Filtered).error)
    ensures r.Ok? ==>
      fresh(r.value) && r.value.Valid() && r.value.pos.None?
      && r.value.results == Outcome(reply, Filtered).value.results
      && r.value.messages == Outcome(reply, Filtered).value.errors
  {
    q := ParseQuery(Sql, text);
    if |q.params| != |args| {
      return q, None, Err(FromMessage("Invalid parameter count"));
    }
    var sql := GenerateQuery(q, args);
    sent := Some(sql);
    r := Run(reply, Filtered);
  }

  /** `execute_statement`: generates the statement's SQL, an unbound slot
      as `null`, and reads the reply with the no-count value skipped as in
      `execute`. */
  method ExecuteStatement(st: Statements.Statement, reply: Reply) returns (sent: string, r: Result<ResultSet>)
    requires st.Valid() && ValidReply(reply)
    ensures sent == Fill(st.query.pieces, Substitutions(Statements.Arguments(st.params), |st.params|))
    ensures r.Ok? <==> Outcome(reply, Filtered).Ok?
    ensures r.Err? ==> r.error == Outcome(reply, Filtered).error
    ensures r.Ok? ==>
      fresh(r.value) && r.value.Valid() && r.value.pos.None?
      && r.value.results == Outcome(reply, Filtered).value.results
      && r.value.messages == Outcome(reply, Filtered).value.errors
  {
    var args := Statements.Arguments(st.params);
    sent := GenerateQuery(st.query, args);
    r := Run(reply, Filtered);
  }

  // ---------------------------------------------------------------------------
  // What the collected result set holds
  // ---------------------------------------------------------------------------

  /** Every row set in `results` has one cell per column in every row. */
  predicate AllWellFormed(results: seq<SybResult>)
  {
    forall k :: 0 <= k < |results| && results[k].RowResult? ==> WellFormed(results[k].rows)
  }

  /** Every row set collected has one cell per column in every row. */
  lemma {:induction false} CollectedRowsWellFormed(steps: seq<Step>, rule: CountRule)
    requires forall k :: 0 <= k < |steps| ==> ValidStep(steps[k])
    ensures CollectSteps(steps, rule).Ok? ==> AllWellFormed(CollectSteps(steps, rule).value.results)
  {
    if steps != [] {
      var n := |steps| - 1;
      CollectedRowsWellFormed(steps[..n], rule);
      if CollectSteps(steps, rule).Ok? {
        var c := CollectSteps(steps[..n], rule).value;
        assert CollectSteps(steps, rule) == StepInto(c, steps[n], rule);
        StepRowsWellFormed(c, steps[n], rule);
      }
    }
  }

  lemma StepRowsWellFormed(c: Collected, s: Step, rule: CountRule)
    requires ValidStep(s) && StepInto(c, s, rule).Ok?
    requires AllWellFormed(c.results)
    ensures AllWellFormed(StepInto(c, s, rule).value.results)
  {
    match s.kind
    case RowResultKind(input) =>
      assert StepInto(c, s, rule).value.results == c.results + [RowResult(FetchedRows(input).value)];
    case StatusResultKind(input) =>
      assert StepInto(c, s, rule).value.results == c.results + [Status(StatusOf(FetchedRows(input).value))];
    case CmdSucceed(m) =>
      assert StepInto(c, s, rule).value.results == c.results + CountItems(m, rule);
    case CmdDone(m) =>
      assert StepInto(c, s, rule).value.results == c.results + CountItems(m, rule);
    case _ =>
  }

  /** All diagnostics of all steps, in order. */
  function AllDiagnostics(steps: seq<Step>): seq<Error>
  {
    if steps == [] then [] else AllDiagnostics(steps[..|steps| - 1]) + steps[|steps| - 1].diagnostics
  }

  /** A step that makes the execution fail: a failed command, or a status
      result whose status is not 0. */
  predicate Fails(s: Step)
    requires ValidStep(s)
  {
    s.kind.CmdFail?
    || (s.kind.StatusResultKind? && FetchedRows(s.kind.fetch).Ok? && StatusOf(FetchedRows(s.kind.fetch).value) != 0)
  }

  /** The collected diagnostics are those of every step, in order, and the
      failure flag is raised exactly when some step failed. */
  lemma {:induction false} CollectedDiagnosticsAndFailure(steps: seq<Step>, rule: CountRule)
    requires forall k :: 0 <= k < |steps| ==> ValidStep(steps[k])
    ensures CollectSteps(steps, rule).Ok? ==>
      CollectSteps(steps, rule).value.errors == AllDiagnostics(steps)
      && (CollectSteps(steps, rule).value.failed <==> AnyFails(steps))
  {
    if steps != [] {
      var n := |steps| - 1;
      CollectedDiagnosticsAndFailure(steps[..n], rule);
      if CollectSteps(steps, rule).Ok? {
        var c := CollectSteps(steps[..n], rule).value;
        assert CollectSteps(steps, rule) == StepInto(c, steps[n], rule);
        StepDiagnosticsAndFailure(c, steps[n], rule);
        AnyFailsSnoc(steps);
      }
    }
  }

  lemma StepDiagnosticsAndFailure(c: Collected, s: Step, rule: CountRule)
    requires ValidStep(s) && StepInto(c, s, rule).Ok?
    ensures StepInto(c, s, rule).value.errors == c.errors + s.diagnostics
    ensures StepInto(c, s, rule).value.failed == (c.failed || Fails(s))
  {
  }

  predicate AnyFails(steps: seq<Step>)
    requires forall k :: 0 <= k < |steps| ==> ValidStep(steps[k])
  {
    exists k :: 0 <= k < |steps| && Fails(steps[k])
  }

  lemma AnyFailsSnoc(steps: seq<Step>)
    requires forall k :: 0 <= k < |steps| ==> ValidStep(steps[k])
    requires steps != []
    ensures AnyFails(steps) <==> AnyFails(steps[..|steps| - 1]) || Fails(steps[|steps| - 1])
  {
    var n := |steps| - 1;
    if AnyFails(steps[..n]) {
      var k :| 0 <= k < n && Fails(steps[..n][k]);
      assert Fails(steps[k]);
    }
    if AnyFails(steps) {
      var k :| 0 <= k < |steps| && Fails(steps[k]);
      if k < n {
        assert Fails(steps[..n][k]);
      }
    }
  }

  /** A successful execution carries every diagnostic, in order; a failed
      step makes the execution fail with the last diagnostic, or with the
      generic message when there is none. */
  lemma ExecutionOutcome(reply: Reply, rule: CountRule)
    requires ValidReply(reply) && reply.sendError.None? && reply.end.None?
    requires CollectSteps(reply.steps, rule).Ok?
    ensures Outcome(reply, rule).Ok? ==> Outcome(reply, rule).value.errors == AllDiagnostics(reply.steps)
    ensures Outcome(reply, rule).Ok? <==> !AnyFails(reply.steps)
    ensures Outcome(reply, rule).Err? ==>
      Outcome(reply, rule).error ==
        (if AllDiagnostics(reply.steps) == [] then FromMessage("Query execution resulted in error")
         else AllDiagnostics(reply.steps)[|AllDiagnostics(reply.steps)| - 1])
  {
    CollectedDiagnosticsAndFailure(reply.steps, rule);
  }

  /** The update counts the steps report, as `execute` reads them: the real
      ones, widened, in order. */
  function ReportedCounts(steps: seq<Step>): seq<int>
    requires forall k :: 0 <= k < |steps| ==> ValidStep(steps[k])
  {
    if steps == [] then [] else ReportedCounts(steps[..|steps| - 1]) + ReportedBy(steps[|steps| - 1])
  }

  /** The real count one step reports, widened. */
  function ReportedBy(s: Step): seq<int>
    requires ValidStep(s)
  {
    if (s.kind.CmdSucceed? || s.kind.CmdDone?) && s.kind.rowCount != NoCount then [AsU64(s.kind.rowCount)] else []
  }

  /** The update counts listed in a result set, in order. */
  function CountsIn(results: seq<SybResult>): seq<int>
  {
    if results == [] then []
    else
      CountsIn(results[..|results| - 1])
      + (if results[|results| - 1].UpdateCount? then [results[|results| - 1].count] else [])
  }

  lemma CountsInAppend(a: seq<SybResult>, b: seq<SybResult>)
    ensures CountsIn(a + b) == CountsIn(a) + CountsIn(b)
    decreases |b|
  {
    if b == [] {
      assert a + b == a;
    } else {
      assert (a + b)[..|a + b| - 1] == a + b[..|b| - 1];
      CountsInAppend(a, b[..|b| - 1]);
    }
  }

  /** With the no-count value skipped, the update counts in the result set
      are exactly the real counts the steps reported, in order. */
  lemma {:induction false} FilteredCountsAreReported(steps: seq<Step>)
    requires forall k :: 0 <= k < |steps| ==> ValidStep(steps[k])
    ensures CollectSteps(steps, Filtered).Ok? ==>
      CountsIn(CollectSteps(steps, Filtered).value.results) == ReportedCounts(steps)
  {
    if steps != [] {
      var n := |steps| - 1;
      FilteredCountsAreReported(steps[..n]);
      if CollectSteps(steps, Filtered).Ok? {
        var c := CollectSteps(steps[..n], Filtered).value;
        assert CollectSteps(steps, Filtered) == StepInto(c, steps[n], Filtered);
        StepCounts(c, steps[n]);
      }
    }
  }

  lemma StepCounts(c: Collected, s: Step)
    requires ValidStep(s) && StepInto(c, s, Filtered).Ok?
    ensures CountsIn(StepInto(c, s, Filtered).value.results) == CountsIn(c.results) + ReportedBy(s)
  {
    match s.kind
    case RowResultKind(input) =>
      CountsInAppend(c.results, [RowResult(FetchedRows(input).value)]);
    case StatusResultKind(input) =>
      CountsInAppend(c.results, [Status(StatusOf(FetchedRows(input).value))]);
    case CmdSucceed(m) =>
      CountsInAppend(c.results, CountItems(m, Filtered));
    case CmdDone(m) =>
      CountsInAppend(c.results, CountItems(m, Filtered));
    case _ =>
  }

  /** A done result that reports no count. */
  const NoCountReply: seq<Step> := [Step(CmdDone(NoCount), [])]

  /** As written, `execute_statement` lists an update count for a done
      result that reported none, and that count reads as 4294967295. */
  lemma StatementListsNoCountAsWritten()
    ensures CollectSteps(NoCountReply, Unfiltered) == Ok(Collected([UpdateCount(4294967295)], false, []))
    ensures ReportedCounts(NoCountReply) == []
  {
    assert NoCountReply[..0] == [];
    assert CollectSteps(NoCountReply, Unfiltered) == StepInto(Collected([], false, []), NoCountReply[0], Unfiltered);
    assert CountItems(NoCount, Unfiltered) == [UpdateCount(4294967295)];
    var step := NoCountReply[0];
    assert step.kind == CmdDone(NoCount) && step.diagnostics == [];
    var empty: seq<Error> := [];
    assert empty + step.diagnostics == empty;
    assert [] + CountItems(NoCount, Unfiltered) == [UpdateCount(4294967295)];
    assert StepInto(Collected([], false, []), NoCountReply[0], Unfiltered) == Ok(Collected([UpdateCount(4294967295)], false, []));
  }

  /** With the filter `execute` uses, the same reply lists no update count,
      as `ReportedCounts` says. */
  lemma StatementSkipsNoCount()
    ensures CollectSteps(NoCountReply, Filtered) == Ok(Collected([], false, []))
    ensures CountsIn(CollectSteps(NoCountReply, Filtered).value.results) == ReportedCounts(NoCountReply)
  {
    assert NoCountReply[..0] == [];
    FilteredCountsAreReported(NoCountReply);
  }

  // ---------------------------------------------------------------------------
  // Diagnostics
  // ---------------------------------------------------------------------------

  /** Whether the installed message callback lets a diagnostic through; with
      no callback every diagnostic is kept. */
  predicate Accepts(callback: Option<Error -> bool>, msg: Error)
  {
    callback.None? || callback.value(msg)
  }

  /** The connection's diagnostics store, filled by the library's message
      handlers. */
  class MessageStore {
    var messages: seq<Error>
    var callback: Option<Error -> bool>

    constructor ()
      ensures messages == [] && callback.None?
    {
      messages := [];
      callback := None;
    }

    /** The handler: a diagnostic is stored only if the callback accepts it. */
    method Handle(msg: Error)
      modifies this
      ensures callback == old(callback)
      ensures messages == old(messages) + (if Accepts(callback, msg) then [msg] else [])
    {
      if callback.Some? && !callback.value(msg) {
        return;
      }
      messages := messages + [msg];
    }

    /** `set_message_callback`: later diagnostics pass through `f`. */
    method SetCallback(f: Error -> bool)
      modifies this
      ensures callback == Some(f) && messages == old(messages)
    {
      callback := Some(f);
    }

    /** `clear_message_callback`: later diagnostics are all stored. */
    method ClearCallback()
      modifies this
      ensures callback.None? && messages == old(messages)
      ensures forall msg :: Accepts(callback, msg)
    {
      callback := None;
    }

    /** `diag_clear`. */
    method Clear()
      modifies this
      ensures messages == [] && callback == old(callback)
    {
      messages := [];
    }

    /** `get_error`: the first stored diagnostic more severe than 10. */
    function GetError(): (e: Option<Error>)
      reads this
      ensures e == FirstSevere(messages)
    {
      FirstSevere(messages)
    }
  }

  /** A diagnostic without a severity counts as the most severe. */
  predicate Severe(e: Error)
  {
    e.severity.GetOr(I32Max) > 10
  }

  /** The first diagnostic whose severity is above 10, if any. */
  function FirstSevere(messages: seq<Error>): (e: Option<Error>)
    ensures e.None? <==> forall k :: 0 <= k < |messages| ==> !Severe(messages[k])
    ensures e.Some? ==>
      exists k :: 0 <= k < |messages| && messages[k] == e.value && Severe(e.value)
        && forall j :: 0 <= j < k ==> !Severe(messages[j])
  {
    if messages == [] then None
    else if Severe(messages[0]) then Some(messages[0])
    else
      var rest := FirstSevere(messages[1..]);
      assert forall k :: 1 <= k < |messages| ==> messages[k] == messages[1..][k - 1];
      rest
  }

  // ---------------------------------------------------------------------------
  // Server address
  // ---------------------------------------------------------------------------

  /** The server `connect` dials: the configured server name if any,
      otherwise `host:port` with port 5000 by default; with neither an
      error. */
  function ServerName(serverName: Option<string>, host: Option<string>, port: Option<int>): (r: Result<string>)
    requires port.Some? ==> 0 <= port.value < 65536
    ensures serverName.Some? ==> r == Ok(serverName.value)
    ensures serverName.None? && host.None? ==> r == Err(FromMessage("Server host address not configured"))
    ensures serverName.None? && host.Some? ==> r.Ok? && |r.value| > |host.value| + 1
  {
    match serverName
    case Some(name) => Ok(name)
    case None =>
      match host
      case None => Err(FromMessage("Server host address not configured"))
      case Some(h) => Ok(h + ":" + DecimalString(port.GetOr(5000)))
  }

  /** A `host:port` address is the host, a colon, and digits that read back
      as the port (5000 when none is set). */
  lemma AddressEndsWithPort(host: string, port: Option<int>)
    requires port.Some? ==> 0 <= port.value < 65536
    ensures var a := ServerName(None, Some(host), port).value;
      var digits := a[|host| + 1..];
      a[..|host|] == host && a[|host|] == ':'
      && ParseDecimal(digits) == port.GetOr(5000)
      && forall j :: 0 <= j < |digits| ==> IsDigit(digits[j])
  {
    var p := port.GetOr(5000);
    IntegerLiteralRoundTrip(p);
    var a := ServerName(None, Some(host), port).value;
    assert a == host + ":" + DecimalString(p);
    assert a[|host| + 1..] == DecimalString(p);
  }
}
