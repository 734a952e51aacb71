/** Fixed-width machine integers, failure-carrying results, and the
    division facts used to take words apart into bit fields. */
module Words {

  const TWO_32: int := 0x1_0000_0000
  const TWO_64: int := 0x1_0000_0000_0000_0000

  /** C++ uint8_t, uint32_t, uint64_t/size_t and int64_t. */
  type u8 = x: int | 0 <= x < 0x100
  type u32 = x: int | 0 <= x < 0x1_0000_0000
  type u64 = x: int | 0 <= x < 0x1_0000_0000_0000_0000
  type i64 = x: int | -0x8000_0000_0000_0000 <= x < 0x8000_0000_0000_0000

  /** A value or the error that the source would have thrown instead. */
  datatype Result<T, E> = Ok(value: T) | Err(error: E)

  /** A value that may be absent. */
  datatype Option<T> = None | Some(value: T)

  /** Success or the error that the source would have thrown (for void operations). */
  datatype Outcome<E> = Pass | Fail(error: E)

  /** 256^n: the weight of byte n in a little-endian number. */
  function Pow256(n: nat): (r: nat)
    ensures r > 0
  {
    if n == 0 then 1 else 256 * Pow256(n - 1)
  }

  lemma MulAtLeast(d: int, c: int)
    requires 0 < c && 1 <= d
    ensures c <= d * c
  {}

  /** Euclidean division has exactly one quotient and remainder. */
  lemma DivUnique(w: int, c: int, q: int, r: int)
    requires 0 < c && 0 <= r < c && w == q * c + r
    ensures w / c == q && w % c == r
  {
    var q0, r0 := w / c, w % c;
    assert w == q0 * c + r0;
    if q0 < q {
      assert (q - q0) * c == q * c - q0 * c;
      MulAtLeast(q - q0, c);
    } else if q0 > q {
      assert (q0 - q) * c == q0 * c - q * c;
      MulAtLeast(q0 - q, c);
    }
  }

  /** A word laid out as `(hi * m + f) * c + lo` holds `f` in the field
      that `w / c % m` selects. */
  lemma FieldOf(w: int, c: int, m: int, hi: int, f: int, lo: int)
    requires 0 < c && 0 < m && 0 <= lo < c && 0 <= f < m
    requires w == (hi * m + f) * c + lo
    ensures w / c % m == f
  {
    DivUnique(w, c, hi * m + f, lo);
    DivUnique(hi * m + f, m, hi, f);
  }

  /** Dividing twice is dividing by the product. */
  lemma DivDiv(a: nat, b: int, c: int)
    requires 0 < b && 0 < c
    ensures a / b / c == a / (b * c)
  {
    var q := a / b / c;
    var r := (a / b) % c * b + a % b;
    assert a / b == q * c + (a / b) % c;
    assert a == (q * c + (a / b) % c) * b + a % b;
    assert (q * c + (a / b) % c) * b == q * (b * c) + (a / b) % c * b;
    assert 0 <= r < b * c by {
      assert (a / b) % c * b <= (c - 1) * b;
    }
    DivUnique(a, b * c, q, r);
  }
}
