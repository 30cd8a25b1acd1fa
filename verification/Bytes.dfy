/** What the host side of debugWIRE deals in. */
module Bytes {

  type byte = x: int | 0 <= x < 256

  function Min(a: int, b: int): int { if a < b then a else b }

  // ---- remainders, for divisors that are not literals

  lemma RemainderOf(n: int, d: nat, q: int, r: nat)
    requires d > 0 && n == d * q + r && r < d
    ensures n % d == r && n / d == q
  {
    assert n == d * (n / d) + n % d;
    var e := n / d - q;
    OnlyZero(d, e, r - n % d);
  }

  lemma OnlyZero(d: int, e: int, x: int)
    requires d > 0 && d * e == x && -d < x < d
    ensures e == 0 && x == 0
  {
    assert e >= 1 ==> d * e >= d;
    assert e <= -1 ==> d * e <= -d;
  }

  lemma SmallRemainder(n: nat, d: nat)
    requires n < d
    ensures n % d == n
  {
    RemainderOf(n, d, 0, n);
  }

  lemma LessOne(n: int, d: nat)
    requires 0 < d <= n
    ensures (n - d) % d == n % d
  {
    assert n - d == d * (n / d - 1) + n % d;
    RemainderOf(n - d, d, n / d - 1, n % d);
  }

  lemma WholeFits(n: nat, d: nat)
    requires 0 < d <= n
    ensures d <= n - n % d
  {
    assert n == d * (n / d) + n % d;
    assert n / d >= 1;
  }
}
