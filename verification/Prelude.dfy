/** Types shared by every component. */
module Prelude {

  datatype Option<+T> = None | Some(value: T)

  type byte = b: int | 0 <= b < 256

  type Bytes = seq<byte>

  const MAX_INT64: int := 0x7FFF_FFFF_FFFF_FFFF
  const MIN_INT64: int := -0x8000_0000_0000_0000

  type int64 = n: int | MIN_INT64 <= n <= MAX_INT64

  /** `n + 1` as a 64-bit signed machine word computes it. */
  function Succ64(n: int64): (r: int64)
    ensures n < r <==> n < MAX_INT64
  {
    if n == MAX_INT64 then MIN_INT64 else n + 1
  }

  /*** Multiples ***/

  lemma TimesSucc(a: int, r: nat)
    ensures (a + 1) * r == a * r + r
  {
  }

  lemma TimesOrder(a: int, b: int, r: nat)
    requires a <= b
    ensures a * r <= b * r
  {
    var d: nat := b - a;
    assert d * r >= 0;
    assert b * r == (a + d) * r == a * r + d * r;
  }

  /** The remainder of a number that lies `r` above a multiple. */
  lemma RemainderOf(q: int, n: nat, r: nat)
    requires r < n
    ensures (q * n + r) % n == r
  {
    var x := q * n + r;
    var d := x / n;
    assert x == d * n + x % n;
    if d < q {
      TimesOrder(d + 1, q, n);
      TimesSucc(d, n);
    } else if q < d {
      TimesOrder(q + 1, d, n);
      TimesSucc(q, n);
    }
  }
}
