// Byte memory and the arithmetic of rows in it.

module Memory {

  type byte = x: int | 0 <= x < 256

  /** a rows (or pixels) of n each; named so that products stay out of the way. */
  function Times(a: nat, n: nat): nat {
    a * n
  }

  lemma {:induction false} Distributes(a: nat, b: nat, n: nat)
    ensures Times(a + b, n) == Times(a, n) + Times(b, n) && Times(1, n) == n && Times(0, n) == 0
  {}

  lemma {:induction false} Monotone(a: nat, b: nat, n: nat)
    requires a <= b
    ensures Times(a, n) <= Times(b, n)
  {
    Distributes(a, b - a, n);
  }

  lemma {:induction false} Multiples(k: int, d: nat)
    ensures k >= 1 ==> k * d >= d
    ensures k <= -1 ==> k * d <= 0 - d
  {}

  lemma {:induction false} DivisionIs(x: nat, d: nat, q: nat, r: nat)
    requires d > 0 && x == q * d + r && r < d
    ensures x / d == q && x % d == r
  {
    assert (x / d - q) * d == x / d * d - q * d;
    Multiples(x / d - q, d);
  }

  lemma {:induction false} Quotient(n: nat, d: nat)
    requires d >= 1
    ensures n / d <= Times(n / d, d) <= n
  {}

  lemma {:induction false} PlaceOf(y: nat, b: nat, stride: nat)
    requires b < stride
    ensures (Times(y, stride) + b) / stride == y && (Times(y, stride) + b) % stride == b
  {
    DivisionIs(y * stride + b, stride, y, b);
  }

  /** h rows of w pixels, a stride apart, lie in memory of this length. */
  predicate Stored(length: nat, w: nat, h: nat, stride: nat, bytesPerPixel: nat) {
    Times(w, bytesPerPixel) <= stride && (h > 0 ==> Times(h - 1, stride) + Times(w, bytesPerPixel) <= length)
  }
}
