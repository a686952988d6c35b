/** The few facts about products and quotients that the other modules need. */
module Arithmetic {
  lemma MulMono(i: nat, j: nat, n: nat)
    requires i <= j
    ensures i * n <= j * n
  {
  }

  lemma MulNext(i: nat, n: nat)
    ensures (i + 1) * n == i * n + n
  {
  }

  lemma DivModUnique(i: nat, n: nat, r: nat)
    requires r < n
    ensures (i * n + r) / n == i && (i * n + r) % n == r
  {
    var x := i * n + r;
    var q := x / n;
    assert x == q * n + x % n;
    if q < i {
      MulMono(q + 1, i, n);
      MulNext(q, n);
      assert false;
    } else if i < q {
      MulMono(i + 1, q, n);
      MulNext(i, n);
      assert false;
    }
  }

  lemma SmallMod(x: nat, n: nat)
    requires x < n
    ensures x % n == x
  {
    DivModUnique(0, n, x);
  }

  lemma DivBounds(x: nat, n: nat)
    requires n > 0
    ensures x / n * n <= x < (x / n + 1) * n
  {
    assert x == x / n * n + x % n;
    MulNext(x / n, n);
  }

  lemma DivMono(x: nat, y: nat, n: nat)
    requires n > 0 && x <= y
    ensures x / n <= y / n
  {
    DivBounds(x, n);
    DivBounds(y, n);
    if x / n > y / n {
      MulMono(y / n + 1, x / n, n);
      assert false;
    }
  }

  lemma DivAtMost(x: nat, m: nat, n: nat)
    requires n > 0 && x <= m * n
    ensures x / n <= m
  {
    DivMono(x, m * n, n);
    DivModUnique(m, n, 0);
  }
}
