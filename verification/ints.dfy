/** Fixed-width unsigned integers of the Go source, as bounded integers. */
module Ints {
  /** Go's `uint8`, the storage type of a severity. */
  newtype uint8 = x: int | 0 <= x < 0x100

  /** Go's `uint16`, used for colours and logrus level keys. */
  newtype uint16 = x: int | 0 <= x < 0x1_0000
}
