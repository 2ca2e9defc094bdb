/** The fixed-width integer types of Go that appear in the modelled structs. */
module GoInts {

  type Int64 = x: int | -0x8000_0000_0000_0000 <= x < 0x8000_0000_0000_0000

  type Int32 = x: int | -0x8000_0000 <= x < 0x8000_0000

  type UInt16 = x: int | 0 <= x < 0x1_0000
}
