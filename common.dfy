/** Machine-word types and the error-carrying wrappers shared by every module. */
module Base {

  /** An 8-bit unsigned value (a `uint8_t`). */
  type byte = x: int | 0 <= x < 0x100

  /** A 16-bit unsigned value (a `uint16_t`). */
  type u16 = x: int | 0 <= x < 0x1_0000

  /** A 32-bit unsigned value (a `uint32_t`). */
  type u32 = x: int | 0 <= x < 0x1_0000_0000

  datatype Option<+T> = None | Some(value: T)

  /** Success, or the message a program dies with (`fatal`, `error`). */
  datatype Status = Ok | Fatal(message: string)

  datatype Result<+T> = Success(value: T) | Failure(message: string)

  /** A sequence of `n` copies of `x`. */
  function Repeat<T>(x: T, n: nat): (r: seq<T>)
    ensures |r| == n && forall i :: 0 <= i < n ==> r[i] == x
  {
    if n == 0 then [] else Repeat(x, n - 1) + [x]
  }

  /** Every element is smaller than the next one. */
  predicate StrictlyIncreasing(s: seq<int>)
  {
    forall i, j :: 0 <= i < j < |s| ==> s[i] < s[j]
  }

  /** A value above every element extends a strictly increasing sequence. */
  lemma IncreasingSnoc(s: seq<int>, x: int)
    requires StrictlyIncreasing(s) && forall j :: 0 <= j < |s| ==> s[j] < x
    ensures StrictlyIncreasing(s + [x])
  {
  }

  /** Concatenation regroups freely. */
  lemma Associative<T>(a: seq<T>, b: seq<T>, c: seq<T>)
    ensures (a + b) + c == a + (b + c)
  {
  }

  /** A positive multiple of `p` is at least `p`. */
  lemma MultipleAtLeast(d: int, p: int)
    requires d >= 1 && p > 0
    ensures d * p >= p
  {
    assert d * p == (d - 1) * p + p;
  }

  /** Quotient and remainder are the unique pair with `x == q * p + r` and `0 <= r < p`. */
  lemma DivisionOf(x: int, p: int, q: int, r: int)
    requires p > 0 && 0 <= r < p && x == q * p + r
    ensures x / p == q && x % p == r
  {
    var q', r' := x / p, x % p;
    assert q' * p + r' == q * p + r;
    if q' > q {
      MultipleAtLeast(q' - q, p);
      assert false;
    } else if q' < q {
      MultipleAtLeast(q - q', p);
      assert false;
    }
  }

  /** The product grows with its left factor. */
  lemma MulMonotone(x: int, y: int, p: int)
    requires x <= y && p >= 0
    ensures x * p <= y * p
  {
    assert y * p - x * p == (y - x) * p;
  }

  /** A quotient is below `b` when the dividend is below `b` times the divisor. */
  lemma QuotientBelow(v: nat, p: nat, b: nat)
    requires p > 0 && v < b * p
    ensures v / p < b
  {
    if v / p >= b {
      MulMonotone(b, v / p, p);
      assert false;
    }
  }

  /** Integer division rounds down: the quotient times the divisor is within one divisor below. */
  lemma FloorBounds(x: nat, b: nat)
    requires b > 0
    ensures x / b * b <= x < x / b * b + b
  {
    DivisionOf(x, b, x / b, x % b);
  }

  /** A quotient by a positive divisor lies between 0 and the dividend. */
  lemma QuotientAtMost(x: nat, b: nat)
    requires b > 0
    ensures 0 <= x / b <= x
  {
    MulMonotone(1, b, x / b);
    FloorBounds(x, b);
  }
}
