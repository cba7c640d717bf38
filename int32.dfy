/** C#'s 32-bit `int`: unchecked multiplication wraps around, and `/`
    truncates toward zero and raises on a zero divisor or on
    `int.MinValue / -1`. */
module Int32 {
  import opened Wrappers

  const Modulus: int := 0x1_0000_0000
  const MinValue: int := -0x8000_0000
  const MaxValue: int := 0x7fff_ffff

  type int32 = x: int | MinValue <= x <= MaxValue

  /** The exceptions C# integer division raises. */
  datatype ArithFault = DivideByZero | Overflow

  function Abs(x: int): (r: nat)
    ensures r == x || r == -x
  {
    if x < 0 then -x else x
  }

  /** Narrowing of an unbounded product to 32 bits, as an unchecked C#
      context does: the unique int32 congruent to `x` modulo 2^32. */
  function Wrap(x: int): (r: int32)
    ensures (x - r) % Modulus == 0
    ensures MinValue <= x <= MaxValue ==> r == x
  {
    var m := (x - MinValue) % Modulus;
    assert x - (m + MinValue) == Modulus * ((x - MinValue) / Modulus);
    m + MinValue
  }

  /** `a * b` on two C# ints. */
  function Mul(a: int32, b: int32): (r: int32)
    ensures (a * b - r) % Modulus == 0
    ensures MinValue <= a * b <= MaxValue ==> r == a * b
  {
    Wrap(a * b)
  }

  /** The quotient of `a` by `b` rounded toward zero: the remainder is smaller
      than the divisor in magnitude and never has the sign opposite to `a`. */
  function TruncDiv(a: int, b: int): (q: int)
    requires b != 0
    ensures Abs(a - q * b) < Abs(b)
    ensures a >= 0 ==> a - q * b >= 0
    ensures a <= 0 ==> a - q * b <= 0
    ensures Abs(q) <= Abs(a)
  {
    var x, y := Abs(a), Abs(b);
    var m := x / y;
    NatDivision(x, y);
    SignedProducts(m, y);
    if (a < 0) == (b < 0) then m else -m
  }

  /** Euclidean division of naturals: the quotient is at most the dividend. */
  lemma NatDivision(x: nat, y: nat)
    requires y > 0
    ensures x == (x / y) * y + x % y && 0 <= x % y < y
    ensures 0 <= x / y <= x
  {
    var k := x / y;
    MulMonotone(k, y);
  }

  lemma MulMonotone(k: nat, y: nat)
    requires y > 0
    ensures k <= k * y
  {
    if y > 1 {
      MulMonotone(k, y - 1);
      assert k * y == k * (y - 1) + k;
    }
  }

  lemma SignedProducts(m: int, y: int)
    ensures m * -y == -(m * y) && -m * y == -(m * y) && -m * -y == m * y
  {
  }

  /** `a / b` on two C# ints. */
  function Div(a: int32, b: int32): (r: Result<int32, ArithFault>)
    ensures r == Failure(DivideByZero) <==> b == 0
    ensures r == Failure(Overflow) <==> b != 0 && a == MinValue && b == -1
    ensures r.Success? ==> r.value == TruncDiv(a, b)
  {
    if b == 0 then Failure(DivideByZero)
    else if a == MinValue && b == -1 then Failure(Overflow)
    else
      var q := TruncDiv(a, b);
      Success(q)
  }
}
