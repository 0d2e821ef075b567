/** What every component model shares. */
module Common {
  datatype Option<+T> = None | Some(value: T)

  /** One more than the greatest 32-bit unsigned number. */
  const UINT_RANGE := 0x1_0000_0000
}
