/** Index arithmetic around a ring of n positions, and Go's remainder operator. */
module Modular {

  /** Go's `%`: the remainder takes the sign of the dividend. */
  function GoRem(a: int, b: int): int
    requires b > 0
  {
    if a >= 0 then a % b else -((-a) % b)
  }

  /** The source's posMod, written with Go's operator. */
  function PosMod(a: int, b: int): (r: int)
    requires b > 0
    ensures 0 <= r < b
  {
    GoRem(GoRem(a, b) + b, b)
  }

  lemma MultipleOutgrows(k: int, b: int)
    requires b > 0
    ensures k >= 1 ==> k * b >= b
    ensures k <= -1 ==> k * b <= -b
  {
    if k >= 1 {
      assert k * b == (k - 1) * b + b;
    } else if k <= -1 {
      assert k * b == (k + 1) * b - b && (-k - 1) * b >= 0;
    }
  }

  lemma ModUnique(x: int, b: int, q: int, r: int)
    requires 0 <= r < b && x == q * b + r
    ensures x % b == r && x / b == q
  {
    assert (q - x / b) * b == x % b - r;
    MultipleOutgrows(q - x / b, b);
  }

  /** posMod is the mathematical modulo for every dividend, negative ones included. */
  lemma PosModIsEuclidean(a: int, b: int)
    requires b > 0
    ensures PosMod(a, b) == a % b
  {
    if a >= 0 {
      var r := a % b;
      ModUnique(r + b, b, 1, r);
    } else {
      var m := (-a) % b;
      var q := (-a) / b;
      assert -a == q * b + m;
      if m == 0 {
        ModUnique(b, b, 1, 0);
        assert (-q) * b == -(q * b);
        ModUnique(a, b, -q, 0);
      } else {
        ModUnique(b - m, b, 0, b - m);
        assert (-q - 1) * b == -(q * b) - b;
        ModUnique(a, b, -q - 1, b - m);
      }
    }
  }

  /** x reduced into 0..n-1, for an x at most one lap outside that range. */
  function Wrap(n: int, x: int): int
    requires n > 0
  {
    if x < 0 then x + n else if x >= n then x - n else x
  }

  lemma PosModIsWrap(n: int, x: int)
    requires n > 0 && -n <= x < 2 * n
    ensures PosMod(x, n) == x % n == Wrap(n, x)
  {
    PosModIsEuclidean(x, n);
    if x < 0 {
      ModUnique(x, n, -1, x + n);
    } else if x >= n {
      ModUnique(x, n, 1, x - n);
    } else {
      ModUnique(x, n, 0, x);
    }
  }
}
