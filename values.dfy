/**
 * The value types the modules' entities share: identifiers, instants and
 * money. `Guid.NewGuid()` and `DateTime.UtcNow` are not modelled; callers
 * pass the values they would produce.
 */
module Values {
  /** A `Guid`, as an opaque number. */
  type Guid = nat

  /** A `DateTime`, as a count of ticks. */
  type DateTime = int

  /** A C# `decimal`, as an exact rational. */
  type Decimal = real
}
