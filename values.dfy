/** Shared vocabulary of the WMR89 driver model: bytes as they come off the
    serial line, the values a decoded record holds, and records themselves. */
module Values {

  /** One byte of a `bytearray`: indexing one in the driver yields an int in 0..255. */
  type Byte = b: int | 0 <= b < 256

  datatype Option<+T> = None | Some(value: T)

  /** A value stored in a record. The driver keeps Python floats, Python ints
      and `None` apart (humidity is an int 95/25 at its sentinels and a float
      otherwise), so the model does too. Floats are exact reals here. */
  datatype Value = Float(x: real) | Int(i: int) | Null

  /** A record: observation name (or, after remapping, field name) to value. */
  type Record = map<string, Value>

  /** The unit-system tag weewx uses for METRIC (0x10). */
  const METRIC: int := 0x10

  const DATE_TIME: string := "dateTime"
  const US_UNITS: string := "usUnits"

  /** A record carries the decode time `now` and the METRIC unit tag. */
  predicate Stamped(r: Record, now: int)
  {
    && DATE_TIME in r && r[DATE_TIME] == Int(now)
    && US_UNITS in r && r[US_UNITS] == Int(METRIC)
  }
}
