/** Absolute values, minima, maxima and remainders. */
module Numbers {

  function Abs(x: real): real {
    if x < 0.0 then -x else x
  }

  function Min(x: real, y: real): real {
    if x < y then x else y
  }

  function Max(x: real, y: real): real {
    if x < y then y else x
  }

  /** A product, named. */
  function Product(x: int, y: int): int {
    x * y
  }

  lemma Quotient(k: nat, n: nat)
    requires 0 < n
    ensures k == Product(k / n, n) + k % n
  {
  }

  lemma OneMoreTime(q: int, n: int)
    ensures Product(q + 1, n) == Product(q, n) + n
  {
  }

  lemma FartherByOne(q: int, p: int, n: nat)
    requires q < p
    ensures Product(q, n) + n <= Product(p, n)
  {
    assert (p - q - 1) * n >= 0;
  }

  lemma RemainderAfter(k: nat, n: nat)
    requires 0 < n
    ensures (k + n) % n == k % n
  {
    Quotient(k, n);
    Quotient(k + n, n);
    OneMoreTime(k / n, n);
    if k / n + 1 < (k + n) / n {
      FartherByOne(k / n + 1, (k + n) / n, n);
    } else if (k + n) / n < k / n + 1 {
      FartherByOne((k + n) / n, k / n + 1, n);
    }
  }
}
