/** The driver.Value arguments a caller may bind. */
module Values {
  import opened Wire
  import opened Response

  /** A float64: its bits, and the shortest decimal text strconv gives for it. */
  datatype Float64 = Float64(bits: int, text: Bytes)

  datatype Value =
    | Nil
    | Bool(b: bool)
    | Int(i: int)
    | Float(f: Float64)
    | Str(s: Bytes)
    | Blob(data: Bytes)
    | Timestamp(at: Moment)  // the fields of the time in UTC
    | Other(printed: Bytes)  // any other Go type, with its %v text
}
