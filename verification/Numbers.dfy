/** Bytes, and the integer division of C#. */
module Numbers {

  type byte = b: int | 0 <= b < 256
  type Bytes = seq<byte>

  /** Division truncates towards zero. */
  function Quotient(a: int, b: nat): int
    requires b > 0
  {
    if a >= 0 then a / b else -(-a / b)
  }

  /** The remainder has the sign of the dividend. */
  function Remainder(a: int, b: int): int
    requires b != 0
  {
    var size := if b > 0 then b else -b;
    if a >= 0 then a % size else -((-a) % size)
  }

  lemma UniqueRemainder(a: nat, m: nat, q: nat, r: nat)
    requires m > 0 && a == q * m + r && r < m
    ensures a % m == r && a / m == q
  {
    var k := a / m;
    assert a == k * m + a % m;
    assert k < q ==> (k + 1) * m <= q * m;
    assert k > q ==> (q + 1) * m <= k * m;
  }

  lemma Monotone(a: nat, b: nat, m: nat)
    requires m > 0 && a <= b
    ensures a / m <= b / m
  {
    var q, r := a / m, b / m;
    assert a == q * m + a % m && b == r * m + b % m;
    assert q > r ==> (r + 1) * m <= q * m;
  }
}
