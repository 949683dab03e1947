// JavaScript strings are sequences of UTF-16 code units.
module CodeUnits {
  type CodeUnit = x: int | 0 <= x < 0x10000
}
