/** Column and parameter identifiers: a position or a name (src/column_id.rs). */
module ColumnIds {
  import opened Common

  /** `ColumnId`: a 32-bit position or a name. */
  datatype ColumnId = I32(i: int) | String(s: string)

  /** `From<i32>`. */
  function FromI32(i: int): (r: ColumnId)
    requires IsI32(i)
    ensures r.I32? && r.i == i
  {
    I32(i)
  }

  /** `From<i64>`: the conversion panics unless the value fits in 32 bits,
      so the model requires it. */
  function FromI64(l: int): (r: ColumnId)
    requires IsI64(l) && IsI32(l)
    ensures r.I32? && r.i == l
  {
    I32(l)
  }

  /** `From<usize>`: the conversion panics above `i32::MAX`. */
  function FromUsize(n: nat): (r: ColumnId)
    requires n <= I32Max
    ensures r.I32? && r.i == n && IsI32(r.i)
  {
    I32(n)
  }

  /** `From<String>` and `From<&str>`. */
  function FromString(s: string): (r: ColumnId)
    ensures r.String? && r.s == s
  {
    String(s)
  }
}
