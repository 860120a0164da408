/** Shared vocabulary of the splitter model: optional values (Java `null`),
    integer 3-vectors (BlockPos / Vec3i) and the integer helpers the
    splitter uses (Math.abs, Math.min, Math.max and a ceiling division). */
module Common {

  /** A Java reference that may be `null`. */
  datatype Option<+T> = None | Some(value: T)

  /** An integer block position or size, as `BlockPos`. */
  datatype Vec3 = Vec3(x: int, y: int, z: int)
  {
    function Plus(o: Vec3): Vec3 { Vec3(x + o.x, y + o.y, z + o.z) }
    function Minus(o: Vec3): Vec3 { Vec3(x - o.x, y - o.y, z - o.z) }
  }

  function Abs(n: int): (r: nat)
    ensures r == n || r == -n
  {
    if n < 0 then -n else n
  }

  function Min(a: int, b: int): (r: int)
    ensures r <= a && r <= b && (r == a || r == b)
  {
    if a <= b then a else b
  }

  function Max(a: int, b: int): (r: int)
    ensures r >= a && r >= b && (r == a || r == b)
  {
    if a >= b then a else b
  }

  /** Integer ceiling of `a / b`: the least `r` with `r * b >= a`.
      `Math.ceil((double) a / b)` computes exactly this for 32-bit `a` and
      `b >= 1`, and `Math.ceil(a / 64.0)` for `b == 64`. */
  function CeilDiv(a: nat, b: int): (r: nat)
    requires b >= 1
    ensures r * b >= a
    ensures r == 0 || (r - 1) * b < a
  {
    var q := (a + b - 1) / b;
    var m := (a + b - 1) % b;
    assert a + b - 1 == q * b + m && 0 <= m < b;
    assert q * b == a + b - 1 - m;
    assert (q - 1) * b == q * b - b;
    q
  }

  /** Multiplication by a non-negative factor is monotone. */
  lemma {:induction false} MulMonotone(a: int, b: int, c: nat)
    requires a <= b
    ensures a * c <= b * c
    decreases c
  {
    if c > 0 {
      MulMonotone(a, b, c - 1);
      assert a * c == a * (c - 1) + a;
      assert b * c == b * (c - 1) + b;
    }
  }
}
