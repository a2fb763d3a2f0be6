/** Rounding up, and facts about remainders that ring indices and wrapping counters need. */
module ModArith {

  /** ARROUND_UP, for a power of two. */
  function RoundUp(v: nat, a: nat): (r: nat)
    requires a > 0
    ensures v <= r < v + a
  {
    if v % a != 0 then v - v % a + a else v
  }

  lemma {:induction false} RoundUpAligned(v: nat, a: nat)
    requires a > 0
    ensures RoundUp(v, a) % a == 0
  {
    var q := v / a;
    assert v == q * a + v % a;
    if v % a != 0 { ModUnique(RoundUp(v, a), q + 1, 0, a); }
  }

  lemma SmallMultiple(q: int, n: int)
    requires n > 0 && -n < q * n < n
    ensures q == 0
  {
    assert q >= 1 ==> q * n >= n;
    assert q <= -1 ==> q * n <= -n;
  }

  /** A remainder is determined by its range. */
  lemma ModUnique(x: int, q: int, r: int, n: int)
    requires n > 0 && 0 <= r < n && x == q * n + r
    ensures x % n == r && x / n == q
  {
    var q', r' := x / n, x % n;
    assert x == q' * n + r';
    assert (q' - q) * n == r - r';
    SmallMultiple(q' - q, n);
  }

  lemma ModSucc(k: int, n: int)
    requires n > 0
    ensures (k % n + 1) % n == (k + 1) % n
  {
    var q, r := k / n, k % n;
    assert k == q * n + r;
    if r + 1 < n {
      ModUnique(k + 1, q, r + 1, n);
      ModUnique(r + 1, 0, r + 1, n);
    } else {
      assert k + 1 == (q + 1) * n + 0;
      ModUnique(k + 1, q + 1, 0, n);
      ModUnique(r + 1, 1, 0, n);
    }
  }

  /** Numbers less than `n` apart have different remainders. */
  lemma ModDistinct(a: int, b: int, n: int)
    requires n > 0 && 0 < b - a < n
    ensures a % n != b % n
  {
    if a % n == b % n {
      assert b - a == (b / n - a / n) * n;
      SmallMultiple(b / n - a / n, n);
    }
  }

  lemma ModSame(a: int, n: int)
    requires n > 0
    ensures (a + n) % n == a % n
  {
    assert a + n == (a / n + 1) * n + a % n;
    ModUnique(a + n, a / n + 1, a % n, n);
  }

  lemma {:induction false} OneMore(k: nat, size: nat)
    ensures (k + 1) * size == k * size + size
  {
  }

  /** Of `n` pieces one after the other, piece `k` ends before the end. */
  lemma {:induction false} EndsBelow(k: nat, n: nat, size: nat)
    requires k < n
    ensures k * size + size <= n * size
  {
    OneMore(n - 1, size);
    if k < n - 1 { EndsBelow(k, n - 1, size); }
  }
}
