/** Integer helpers with Go's semantics. */
module GoMath {

  /** `min` of both main.go files. */
  function Min(a: int, b: int): (r: int)
    ensures r <= a && r <= b
    ensures r == a || r == b
  {
    if a < b then a else b
  }

  /** `max` of both main.go files. */
  function Max(a: int, b: int): (r: int)
    ensures r >= a && r >= b
    ensures r == a || r == b
  {
    if a < b then b else a
  }

  function Abs(x: int): (r: int)
    ensures r >= 0 && (r == x || r == -x)
  {
    if x < 0 then -x else x
  }

  /** Go's integer `/`: the quotient is truncated toward zero, so the remainder
      takes the sign of the dividend (Dafny's own `/` is Euclidean). */
  function Quot(a: int, b: int): (q: int)
    requires b != 0
    ensures 0 <= a ==> 0 <= a - q * b < Abs(b)
    ensures a < 0 ==> -Abs(b) < a - q * b <= 0
    ensures 0 <= a && 0 < b ==> q == a / b
  {
    QuotRemainder(a, b);
    Truncate(a, b)
  }

  function Truncate(a: int, b: int): int
    requires b != 0
  {
    var m := Abs(a) / Abs(b);
    if (a < 0) == (b < 0) then m else -m
  }

  lemma QuotRemainder(a: int, b: int)
    requires b != 0
    ensures var r := a - Truncate(a, b) * b;
      (0 <= a ==> 0 <= r < Abs(b)) && (a < 0 ==> -Abs(b) < r <= 0)
  {
    var x: int, y: int := Abs(a), Abs(b);
    var m := x / y;
    assert x == m * y + x % y;
    if 0 <= a && 0 < b {
      assert Truncate(a, b) * b == m * y;
    } else if 0 <= a {
      assert Truncate(a, b) * b == (-m) * (-y) == m * y;
    } else if 0 < b {
      assert Truncate(a, b) * b == (-m) * y == -(m * y);
    } else {
      assert Truncate(a, b) * b == m * (-y) == -(m * y);
    }
  }

  /** Multiplying by a positive factor keeps the order of two integers. */
  lemma MulOrder(x: int, y: int, b: int)
    requires b > 0
    ensures x <= y <==> x * b <= y * b
  {
    assert y * b - x * b == (y - x) * b;
  }
}
