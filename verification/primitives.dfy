/** Scalar types shared by the domain and API models. */
module Primitives {

  /** A `System.Guid`: 128 bits, modelled as the integer they spell. */
  newtype Guid = x: int | 0 <= x < 0x1_0000_0000_0000_0000_0000_0000_0000_0000

  /** A C# `int`. The backend only copies such values, so no arithmetic on
      them is modelled. */
  newtype Int32 = x: int | -0x8000_0000 <= x < 0x8000_0000

  /** A `System.DateOnly`. Dates are only ever copied, never inspected. */
  datatype Date = Date(year: int, month: int, day: int)
}
