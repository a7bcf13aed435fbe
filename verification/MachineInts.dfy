/** Go's fixed-width integer arithmetic, written out over the unbounded integers. */
module MachineInts {
  const TWO_63: int := 0x8000_0000_0000_0000
  const TWO_64: int := 0x1_0000_0000_0000_0000

  /** Conversion to (or wrap-around in) `uint64`. */
  function Uint64(x: int): (u: int)
    ensures 0 <= u < TWO_64
    ensures 0 <= x < TWO_64 ==> u == x
  {
    x % TWO_64
  }

  /** Conversion to (or wrap-around in) `int64`. */
  function Int64(x: int): (i: int)
    ensures -TWO_63 <= i < TWO_63
    ensures -TWO_63 <= x < TWO_63 ==> i == x
  {
    var u := Uint64(x);
    if u < TWO_63 then u else u - TWO_64
  }

  /** Go's `/`, which truncates toward zero. */
  function TruncDiv(a: int, b: int): int
    requires b != 0
  {
    if a >= 0 then a / b else -((-a) / b)
  }

  /** A float64-to-int64 conversion, on exact reals: truncates toward zero. */
  function Trunc(x: real): int {
    if x >= 0.0 then x.Floor else -((-x).Floor)
  }

  function Max(a: int, b: int): (m: int)
    ensures m >= a && m >= b && (m == a || m == b)
  {
    if a < b then b else a
  }

  lemma MulMonotone(x: int, y: int, b: int)
    requires 0 <= b && x <= y
    ensures x * b <= y * b
  {
  }

  lemma DivIsUnique(a: int, b: int, q: int)
    requires b > 0 && q * b <= a < q * b + b
    ensures a / b == q
  {
    var d := a / b;
    assert d * b <= a < d * b + b;
    if d < q {
      MulMonotone(d + 1, q, b);
    } else if d > q {
      MulMonotone(q + 1, d, b);
    }
  }

  lemma DivMonotone(a: int, a': int, b: int)
    requires b > 0 && a <= a'
    ensures a / b <= a' / b
  {
    var d, d' := a / b, a' / b;
    assert d * b <= a && a' < d' * b + b;
    if d' < d {
      MulMonotone(d' + 1, d, b);
    }
  }

  /** Truncating an exact quotient of two whole numbers is integer division. */
  lemma TruncOfQuotient(a: nat, b: int)
    requires b > 0
    ensures Trunc(a as real / b as real) == a / b
  {
    var q := a / b;
    assert 0 <= q && q * b <= a < q * b + b;
    QuotientBetween(a, b, q, a as real / b as real);
    TruncBetween(a as real / b as real, q);
  }

  lemma QuotientBetween(a: nat, b: int, q: nat, x: real)
    requires b > 0 && q * b <= a < q * b + b && x == a as real / b as real
    ensures q as real <= x < q as real + 1.0
  {
    var w, p := b as real, q as real;
    assert x * w == a as real;
    assert p * w == (q * b) as real;
    assert (p + 1.0) * w == p * w + w;
    RealBelow(p, x, w);
    RealBelow(x, p + 1.0, w);
  }

  lemma TruncBetween(x: real, q: nat)
    requires q as real <= x < q as real + 1.0
    ensures Trunc(x) == q
  {
  }

  lemma RealBelow(x: real, y: real, w: real)
    requires w > 0.0
    ensures x * w <= y * w ==> x <= y
    ensures x * w < y * w ==> x < y
  {
    if x > y {
      assert (x - y) * w > 0.0;
    }
  }
}
