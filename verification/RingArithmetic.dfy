/** Indices of circular buffers, and searches that go round them. */
module RingArithmetic {

  lemma {:induction false} ModPlusMultiple(x: int, q: nat, n: int)
    requires n > 0
    ensures (x + q * n) % n == x % n
  {
    if q > 0 {
      ModPlusMultiple(x, q - 1, n);
      ModStep(x + (q - 1) * n, n);
      assert x + (q - 1) * n + n == x + q * n;
    }
  }

  lemma ModStep(x: int, n: int)
    requires n > 0
    ensures (x + n) % n == x % n
  {
    assert (x + n) / n * n + (x + n) % n == x / n * n + x % n + n;
    Multiple((x + n) / n - x / n - 1, n);
  }

  /** A multiple of n that is closer to 0 than n is 0. */
  lemma Multiple(d: int, n: int)
    requires n > 0
    ensures d >= 1 ==> d * n >= n
    ensures d <= -1 ==> d * n <= -n
  {
  }

  /** An index may be reduced before it is moved. */
  lemma ModShift(a: nat, k: int, n: int)
    requires n > 0
    ensures (a % n + k) % n == (a + k) % n
  {
    assert a == a / n * n + a % n;
    ModPlusMultiple(a % n + k, a / n, n);
    assert a % n + k + a / n * n == a + k;
  }

  /** Fewer than n steps apart, so not in the same slot. */
  lemma ModDistinct(a: nat, b: nat, n: int)
    requires 0 < n && a < b < a + n
    ensures a % n != b % n
  {
    assert b / n * n + b % n == a / n * n + a % n + (b - a);
    Multiple(b / n - a / n, n);
  }

  lemma SmallModulo(a: nat, n: nat)
    requires a < n
    ensures a % n == a
  {
  }

  lemma ModAtMost(a: nat, n: int)
    requires n > 0
    ensures a % n <= a
  {
    assert a == a / n * n + a % n;
    Multiple(a / n, n);
  }

  /** How many steps a search that starts at `home` takes to slot i. */
  function Distance(home: nat, i: nat, size: nat): int {
    if home <= i then i - home else i - home + size
  }

  /** One step of a search leads one slot further, or back home after all the slots. */
  method ProbeNext(i: nat, ghost home: nat, size: nat) returns (next: nat)
    requires i < size && home < size
    ensures next < size
    ensures Distance(home, next, size) == if next == home then 0 else Distance(home, i, size) + 1
    ensures next == home <==> Distance(home, i, size) == size - 1
  {
    next := (i + 1) % size;
    assert i + 1 < size ==> next == i + 1;
  }

  lemma LastIsFarthest(home: nat, j: nat, last: nat, size: nat)
    requires home < size && j < size && last < size && Distance(home, last, size) == size - 1
    ensures j == last || Distance(home, j, size) < Distance(home, last, size)
  {
  }

  /** The first n natural numbers. */
  ghost function Below(n: nat): (s: set<nat>)
    ensures |s| == n && forall i :: i in s <==> 0 <= i < n
  {
    if n == 0 then {} else Below(n - 1) + {n - 1}
  }
}
