/** Facts about integer multiplication and division used by the index
    computations of the layer modifiers. */
module Arithmetic {

  /** Euclidean division is unique: `q * d + r` with `r < d` has quotient `q`
      and remainder `r`. */
  lemma DivModUnique(n: nat, d: nat, q: nat, r: nat)
    requires d > 0 && r < d && n == q * d + r
    ensures n / d == q && n % d == r
  {
    var q', r' := n / d, n % d;
    assert (q' - q) * d == r - r';
    ZeroMultiple(q' - q, d);
  }

  /** A multiple of `d` strictly between `-d` and `d` is zero. */
  lemma ZeroMultiple(a: int, d: nat)
    requires d > 0 && -(d as int) < a * d < d
    ensures a == 0
  {
    MultipleSize(a, d);
  }

  /** A non-zero multiple of `d` is at least `d` away from zero. */
  lemma MultipleSize(a: int, d: nat)
    ensures a >= 1 ==> a * d >= d
    ensures a <= -1 ==> a * d <= -(d as int)
  {
    if a >= 1 {
      var b := a - 1;
      assert b * d >= 0;
      assert a * d == b * d + d;
    } else if a <= -1 {
      var b := -a - 1;
      assert b * d >= 0;
      assert a * d == -(b * d) - d;
    }
  }

  /** Multiplying by a fixed factor keeps the order. */
  lemma MulMonotone(a: nat, b: nat, c: nat)
    requires b <= c
    ensures a * b <= a * c
  {
  }

  /** Dividing by `w*h` is dividing by `w` then by `h`. */
  lemma DivDiv(n: nat, w: nat, h: nat)
    requires w > 0 && h > 0
    ensures n / (w * h) == (n / w) / h
  {
    var a, b := n / w, n % w;
    var q, r := a / h, a % h;
    assert n == a * w + b;
    assert a == q * h + r;
    Regroup(q, h, r, w);
    assert w * (r + 1) == r * w + w;
    MulMonotone(w, r + 1, h);
    DivModUnique(n, w * h, q, r * w + b);
  }

  /** Distributing `w` over a quotient-remainder pair. */
  lemma Regroup(q: nat, h: nat, r: nat, w: nat)
    ensures (q * h + r) * w == q * (w * h) + r * w
  {
  }

}
