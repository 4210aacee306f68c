/** Fixed-width integers of the C sources and the C conversions between them.
    Dafny integers are unbounded; every place where the C code truncates, wraps
    or divides toward zero goes through one of the functions below. */
module Ints {

  type u8 = x: int | 0 <= x < 0x100
  type u16 = x: int | 0 <= x < 0x1_0000
  type u32 = x: int | 0 <= x < 0x1_0000_0000
  type i16 = x: int | -0x8000 <= x < 0x8000
  type i32 = x: int | -0x8000_0000 <= x < 0x8000_0000

  datatype Option<+T> = None | Some(value: T)

  /** Conversion of an int to uint8_t (keeps the low 8 bits). */
  function U8(x: int): (r: u8)
    ensures 0 <= x < 0x100 ==> r == x
    ensures (r - x) % 0x100 == 0
  {
    x % 0x100
  }

  /** Conversion of an int to uint16_t (keeps the low 16 bits). */
  function U16(x: int): (r: u16)
    ensures 0 <= x < 0x1_0000 ==> r == x
    ensures (r - x) % 0x1_0000 == 0
  {
    x % 0x1_0000
  }

  /** Conversion of an int to uint32_t (keeps the low 32 bits). */
  function U32(x: int): (r: u32)
    ensures 0 <= x < 0x1_0000_0000 ==> r == x
    ensures (r - x) % 0x1_0000_0000 == 0
  {
    x % 0x1_0000_0000
  }

  /** Conversion of an int to int16_t, two's complement as on the RP2040. */
  function I16(x: int): (r: i16)
    ensures -0x8000 <= x < 0x8000 ==> r == x
    ensures (r - x) % 0x1_0000 == 0
  {
    (x + 0x8000) % 0x1_0000 - 0x8000
  }

  /** Conversion of an int to int32_t, two's complement as on the RP2040. */
  function I32(x: int): (r: i32)
    ensures -0x8000_0000 <= x < 0x8000_0000 ==> r == x
    ensures (r - x) % 0x1_0000_0000 == 0
  {
    (x + 0x8000_0000) % 0x1_0000_0000 - 0x8000_0000
  }

  function Abs(x: int): nat { if x < 0 then -x else x }

  function Min(a: int, b: int): int { if a <= b then a else b }

  function Max(a: int, b: int): int { if a <= b then b else a }

  /** C's `/` on signed operands: the quotient is truncated toward zero. */
  function TDiv(a: int, b: int): (q: int)
    requires b != 0
    ensures Abs(q) == Abs(a) / Abs(b)
    ensures q < 0 ==> (a < 0) != (b < 0)
    ensures q > 0 ==> (a < 0) == (b < 0)
  {
    var m := Abs(a) / Abs(b);
    QuotientNat(Abs(a), Abs(b));
    if (a < 0) == (b < 0) then m else -m
  }

  /** a k written as k copies of a added up, the way a loop that adds a on
      every pass builds it; TimesIsProduct ties it to a * k. */
  function Times(a: int, k: nat): int
  {
    if k == 0 then 0 else Times(a, k - 1) + a
  }

  // ---------------------------------------------------------------------------
  // Arithmetic facts the solver does not find on its own

  lemma {:induction false} TimesIsProduct(a: int, k: nat)
    ensures Times(a, k) == a * k
  {
    if k > 0 {
      TimesIsProduct(a, k - 1);
      assert a * k == a * (k - 1) + a;
    }
  }

  /** Dividing an exact multiple gives the factor back. */
  lemma TDivExact(k: int, b: int)
    requires b != 0
    ensures TDiv(k * b, b) == k
  {
    MulAbs(k, b);
    DivUnique(Abs(k) * Abs(b), Abs(b), Abs(k));
    if k != 0 {
      MulNegative(k, b);
    }
  }

  /** |k b| = |k| |b|. */
  lemma MulAbs(k: int, b: int)
    ensures Abs(k * b) == Abs(k) * Abs(b)
  {
    if k < 0 && b < 0 {
      assert k * b == (-k) * (-b);
    } else if k < 0 {
      assert -(k * b) == (-k) * b;
    } else if b < 0 {
      assert -(k * b) == k * (-b);
    }
  }

  /** A product of nonzero factors is negative exactly when their signs differ. */
  lemma MulNegative(k: int, b: int)
    requires k != 0 && b != 0
    ensures (k * b < 0) == ((k < 0) != (b < 0))
  {
    MulSign(k, Abs(b));
    if b < 0 {
      assert k * b == -(k * Abs(b));
    }
  }

  lemma QuotientNat(x: nat, y: nat)
    requires y > 0
    ensures x / y >= 0
  {
  }

  lemma MulLe(a: int, b: int, c: int)
    requires 0 <= a <= c && 0 <= b
    ensures a * b <= c * b
  {
  }

  /** A product of non-negative factors grows with both factors. */
  lemma MulMonotone(a: int, b: int, c: int, d: int)
    requires 0 <= a <= b && 0 <= c <= d
    ensures a * c <= b * d
  {
    MulLe(a, c, b);
    assert b * c <= b * d;
  }

  lemma MulAtLeast(d: int, len: int)
    requires len > 0 && d >= 1
    ensures d * len >= len
  {
  }

  /** A nonzero multiple of len is at least len away from zero. */
  lemma MulSign(d: int, len: int)
    requires len > 0
    ensures d >= 1 ==> d * len >= len
    ensures d <= -1 ==> d * len <= -len
  {
    if d >= 1 {
      MulAtLeast(d, len);
    } else if d <= -1 {
      MulAtLeast(-d, len);
      assert (-d) * len == -(d * len);
    }
  }

  /** Euclidean division has a unique quotient. */
  lemma DivUnique(x: int, len: int, q: int)
    requires len > 0 && q * len <= x < q * len + len
    ensures x / len == q && x % len == x - q * len
  {
    var t, m := x / len, x % len;
    assert x == t * len + m;
    assert (t - q) * len == t * len - q * len;
    MulSign(t - q, len);
  }

  /** Stepping an index modulo len. */
  lemma ModNext(k: nat, len: nat)
    requires len > 0
    ensures (k % len + 1) % len == (k + 1) % len
  {
    var q, r := k / len, k % len;
    assert k == q * len + r;
    if r + 1 < len {
      DivUnique(k + 1, len, q);
      DivUnique(r + 1, len, 0);
    } else {
      assert (q + 1) * len == q * len + len;
      DivUnique(k + 1, len, q + 1);
      DivUnique(len, len, 1);
    }
  }

  /** Reducing before adding does not change the residue. */
  lemma {:induction false} ModAdd(k: nat, j: nat, len: nat)
    requires len > 0
    ensures (k % len + j) % len == (k + j) % len
  {
    var r := k % len;
    if j == 0 {
      DivUnique(r, len, 0);
    } else {
      ModAdd(k, j - 1, len);
      ModNext(r + j - 1, len);
      ModNext(k + j - 1, len);
    }
  }

  /** The low three bytes of a number, most significant first. */
  lemma Bytes24(x: nat)
    ensures x % 0x100_0000 == ((x / 0x1_0000) % 0x100) * 0x1_0000 + ((x / 0x100) % 0x100) * 0x100 + x % 0x100
  {
    var q, c0 := x / 0x100, x % 0x100;
    var p, c1 := q / 0x100, q % 0x100;
    var g, h := p / 0x100, p % 0x100;
    assert x == q * 0x100 + c0;
    assert q == p * 0x100 + c1;
    assert p == g * 0x100 + h;
    DivUnique(x, 0x1_0000, p);
    DivUnique(x, 0x100_0000, g);
  }
}
