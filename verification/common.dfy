/** Shared vocabulary of the driver model: optional values, fallible results,
    the driver's error record and the integer ranges of the Rust types involved. */
module Common {

  datatype Option<T> = None | Some(value: T)
  {
    function GetOr(default: T): T
    {
      match this
      case Some(v) => v
      case None => default
    }
  }

  /** `Result<T, Error>` of the driver: every fallible operation returns one. */
  datatype Result<T> = Ok(value: T) | Err(error: Error)

  /** The driver's error record. `severity` is carried by the diagnostic
      callbacks; a message built from plain text has neither code nor severity. */
  datatype Error = Error(code: Option<int>, fnName: Option<string>, desc: string, severity: Option<int>)

  /** `Error::from_message`: an error that carries only its description. */
  function FromMessage(desc: string): (e: Error)
    ensures e.desc == desc
    ensures e.code.None? && e.fnName.None? && e.severity.None?
  {
    Error(None, None, desc, None)
  }

  /** Unsigned bytes (`u8`). */
  type byte = x: int | 0 <= x < 256

  const I32Min: int := -0x8000_0000
  const I32Max: int := 0x7FFF_FFFF
  const I64Min: int := -0x8000_0000_0000_0000
  const I64Max: int := 0x7FFF_FFFF_FFFF_FFFF
  const U32Modulus: int := 0x1_0000_0000
  const U64Modulus: int := 0x1_0000_0000_0000_0000

  predicate IsI32(x: int) { I32Min <= x <= I32Max }
  predicate IsI64(x: int) { I64Min <= x <= I64Max }
  predicate IsU64(x: int) { 0 <= x < U64Modulus }
}
