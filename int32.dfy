/** C#'s `int`: 32-bit two's complement, with the unchecked (wrapping) arithmetic the source compiles with. */
module Int32 {
  const MinValue: int := -0x8000_0000
  const MaxValue: int := 0x7fff_ffff

  type int32 = x: int | -0x8000_0000 <= x <= 0x7fff_ffff

  /** The value an unchecked `int` operation leaves when the exact result is `x`. */
  function Wrap(x: int): (r: int32)
    ensures MinValue <= x <= MaxValue ==> r == x
    ensures (x - r) % 0x1_0000_0000 == 0
  {
    (x - MinValue) % 0x1_0000_0000 + MinValue
  }

  /** `int.MaxValue + 1` wraps round to `int.MinValue`. */
  lemma MaxValuePlusOneWraps()
    ensures Wrap(MaxValue + 1) == MinValue
  {
  }
}
