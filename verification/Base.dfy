/**
 Types and arithmetic shared by every component: optional values and the
 two's complement arithmetic of Go's `int32`.
 */
module Base {
  datatype Option<+T> = None | Some(value: T)

  const INT32_MAX: int := 0x7FFF_FFFF
  const INT32_MIN: int := -0x8000_0000

  type int32 = x: int | -0x8000_0000 <= x <= 0x7FFF_FFFF

  predicate FitsInt32(x: int) {
    INT32_MIN <= x <= INT32_MAX
  }

  /** The int32 a Go conversion or addition leaves behind when the exact result is x. */
  function Wrap32(x: int): (r: int32)
    ensures FitsInt32(x) ==> r == x
  {
    (x + 0x8000_0000) % 0x1_0000_0000 - 0x8000_0000
  }

  /** Adding already wrapped numbers gives the wrapped exact sum. */
  lemma WrapAdd(a: int, b: int)
    ensures Wrap32(Wrap32(a) + Wrap32(b)) == Wrap32(a + b)
  {
    var m := 0x1_0000_0000;
    var p, q := (a + 0x8000_0000) / m, (b + 0x8000_0000) / m;
    assert a == Wrap32(a) + m * p && b == Wrap32(b) + m * q;
    WrapShift(Wrap32(a) + Wrap32(b), p + q);
  }

  lemma WrapShift(x: int, k: int)
    ensures Wrap32(x + 0x1_0000_0000 * k) == Wrap32(x)
  {
    var m := 0x1_0000_0000;
    var y := x + 0x8000_0000;
    assert y == m * (y / m) + y % m;
    assert y + m * k == m * (y / m + k) + y % m;
  }
}
