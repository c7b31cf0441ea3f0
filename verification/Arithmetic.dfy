/** Facts about products, remainders and powers of two. */
module Arithmetic {

  lemma TimesLe(p: nat, v: nat, w: nat)
    requires v <= w
    ensures p * v <= p * w
  {
  }

  lemma OrderOfProducts(k: nat, a: nat, b: nat)
    requires k > 0
    ensures a < b <==> a * k < b * k
  {
    if a < b {
      TimesLe(k, a + 1, b);
    } else {
      TimesLe(k, b, a);
    }
  }

  lemma MultipleOf(n: nat, k: nat)
    requires k > 0 && n % k == 0
    ensures (n / k) * k == n
  {
  }

  lemma ProductMod(n: nat, k: nat)
    requires k > 0
    ensures (n * k) % k == 0 && (n * k) / k == n
  {
    var (q, r) := ((n * k) / k, (n * k) % k);
    assert n * k == q * k + r;
    OrderOfProducts(k, n, q + 1);
    OrderOfProducts(k, q, n + 1);
  }

  lemma SumMod(a: nat, b: nat, k: nat)
    requires k > 0 && a % k == 0 && b % k == 0
    ensures (a + b) % k == 0
    ensures a >= b ==> (a - b) % k == 0
  {
    MultipleOf(a, k);
    MultipleOf(b, k);
    assert a + b == (a / k + b / k) * k;
    ProductMod(a / k + b / k, k);
    if a >= b {
      OrderOfProducts(k, a / k, b / k);
      assert a - b == (a / k - b / k) * k;
      ProductMod(a / k - b / k, k);
    }
  }

  lemma DivModUnique(x: nat, d: nat, q: nat, r: nat)
    requires d > 0 && x == q * d + r && r < d
    ensures x % d == r
  {
    var q', r' := x / d, x % d;
    assert x == q' * d + r';
    if q' < q {
      TimesLe(d, q' + 1, q);
    } else if q < q' {
      TimesLe(d, q + 1, q');
    }
  }

  lemma HalfOfMod(x: nat, m: nat)
    requires m > 0
    ensures x % (2 * m) == 2 * ((x / 2) % m) + x % 2
  {
    var q, r := (x / 2) / m, (x / 2) % m;
    assert x / 2 == q * m + r;
    assert x == q * (2 * m) + (2 * r + x % 2);
    DivModUnique(x, 2 * m, q, 2 * r + x % 2);
  }

  function Pow2(k: nat): nat { if k == 0 then 1 else 2 * Pow2(k - 1) }

  lemma {:induction false} Pow2Positive(k: nat)
    ensures Pow2(k) >= 1
  {
    if k > 0 {
      Pow2Positive(k - 1);
    }
  }

  lemma TimesAssociates(a: nat, b: nat, c: nat)
    ensures a * (b * c) == (a * b) * c
  {
  }

  lemma {:induction false} Pow2Add(a: nat, b: nat)
    ensures Pow2(a + b) == Pow2(a) * Pow2(b)
  {
    if a > 0 {
      Pow2Add(a - 1, b);
      TimesAssociates(2, Pow2(a - 1), Pow2(b));
      assert Pow2(a) == 2 * Pow2(a - 1) && a + b - 1 == a - 1 + b;
    }
  }
}
