/** Facts about products, quotients and remainders that the solver needs spelled out. */
module Arithmetic {
  lemma ModUnique(x: nat, c: nat, q: nat, r: nat)
    requires c > 0 && r < c && x == c * q + r
    ensures x % c == r && x / c == q
  {
    var d, m := x / c, x % c;
    assert x == c * d + m;
    if d < q {
      assert c * (d + 1) <= c * q by { MulMono(c, d + 1, q); }
    } else if q < d {
      assert c * (q + 1) <= c * d by { MulMono(c, q + 1, d); }
    }
  }

  lemma {:induction false} MulMono(c: nat, a: nat, b: nat)
    requires a <= b
    ensures c * a <= c * b
  {
    assert c * b == c * a + c * (b - a);
  }

  /** Moving on within the buffer, or exactly to its end. */
  lemma StepMod(a: nat, k: nat, c: nat)
    requires c > 0 && a % c + k <= c
    ensures (a + k) % c == if a % c + k < c then a % c + k else 0
  {
    if a % c + k < c {
      ModUnique(a + k, c, a / c, a % c + k);
    } else {
      assert a + k == c * (a / c + 1);
      ModUnique(a + k, c, a / c + 1, 0);
    }
  }

  /** Two positions less than a capacity apart are different places. */
  lemma DistinctPlaces(i: nat, j: nat, c: nat)
    requires c > 0 && i < j < i + c
    ensures i % c != j % c
  {
    if i % c + (j - i) <= c {
      StepMod(i, j - i, c);
    } else {
      var back := i % c + (j - i) - c;
      assert j == c * (i / c + 1) + back;
      ModUnique(j, c, i / c + 1, back);
    }
  }

  lemma FloorScaleFits(g: nat, w: nat, s: nat)
    requires s > 0
    ensures g * w / s * s <= g * w
  {
    var x := g * w;
    assert x / s * s + x % s == x;
  }

  lemma Distribute(a: nat, b: nat, c: nat)
    ensures (a + b) * c == a * c + b * c
  {
  }

  lemma CancelFactor(a: nat, b: nat, c: nat)
    requires c > 0 && a * c <= c * b
    ensures a <= b
  {
    if a > b {
      LessScales(a, b, c);
    }
  }

  lemma LessScales(a: nat, b: nat, c: nat)
    requires b < a && c > 0
    ensures b * c < a * c
  {
    Distribute(b, a - b, c);
    Distribute(a - b - 1, 1, c);
  }
}
