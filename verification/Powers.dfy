/** Powers of two, and quotients and remainders by them. */
module Powers {

  function Pow2(n: nat): (p: nat)
    ensures p > 0
  {
    if n == 0 then 1 else 2 * Pow2(n - 1)
  }

  lemma {:induction false} DivPow2(data: nat, k: nat)
    ensures data / 2 / Pow2(k) == data / Pow2(k + 1)
    ensures data / Pow2(k) / 2 == data / Pow2(k + 1)
  {
    DivDiv(data, 2, Pow2(k));
    DivDiv(data, Pow2(k), 2);
  }

  lemma DivDiv(a: nat, b: nat, c: nat)
    requires b > 0 && c > 0
    ensures b * c > 0 && a / b / c == a / (b * c)
  {
    var q, r := a / (b * c), a % (b * c);
    var s, t := r / b, r % b;
    MulMonotone(c, s, b);
    assert r == s * b + t && s < c;
    Split(q, b, c, s, t);
    DivUnique(a, b, q * c + s, t);
    DivUnique(q * c + s, c, q, s);
  }

  lemma Split(q: nat, b: nat, c: nat, s: nat, t: nat)
    ensures q * (b * c) + (s * b + t) == (q * c + s) * b + t
  {
  }

  lemma MulMonotone(x: nat, y: nat, b: nat)
    ensures x <= y ==> x * b <= y * b
  {
  }

  lemma DivUnique(a: nat, b: nat, q: nat, r: nat)
    requires r < b && a == q * b + r
    ensures a / b == q && a % b == r
  {
    MulMonotone(a / b + 1, q, b);
    MulMonotone(q + 1, a / b, b);
  }

  lemma ModPow2(data: nat, k: nat)
    ensures Pow2(k + 1) == 2 * Pow2(k)
    ensures data % Pow2(k + 1) == 2 * (data / 2 % Pow2(k)) + data % 2 < Pow2(k + 1)
  {
    var p := Pow2(k);
    var q, r := data / 2 / p, data / 2 % p;
    DivUnique(data, 2 * p, q, 2 * r + data % 2);
  }

  lemma ModOne(x: nat)
    ensures Pow2(0) == 1 && x % Pow2(0) == 0
  {
  }

  lemma {:induction false} Pow2Divides(a: nat, b: nat)
    requires a <= b
    ensures Pow2(b) == Pow2(b - a) * Pow2(a)
  {
    if a < b { Pow2Divides(a, b - 1); }
  }

  lemma Pow2Of16()
    ensures Pow2(16) == 0x1_0000
  {
    assert Pow2(8) == 256;
  }

  lemma WrapMod(n: nat, m: nat, k: nat)
    requires m > 0 && k * m == Pow2(16)
    ensures n % 0x1_0000 % m == n % m
  {
    hide Pow2;
    Pow2Of16();
    var q, r := n / 0x1_0000, n % 0x1_0000;
    var s, t := r / m, r % m;
    Split(q, m, k, s, t);
    assert n == (q * k + s) * m + t;
    DivUnique(n, m, q * k + s, t);
  }

  lemma SmallMod(x: nat, m: nat)
    requires m > 0
    ensures x < m ==> x % m == x
  {
  }

  /** data shifted right by k bits. */
  function Shr(data: nat, k: nat): nat {
    if k == 0 then data else Shr(data / 2, k - 1)
  }

  lemma {:induction false} ShrIsDiv(data: nat, k: nat)
    ensures Shr(data, k) == data / Pow2(k)
    ensures Shr(data, k + 1) == Shr(data, k) / 2
  {
    if k > 0 {
      ShrIsDiv(data / 2, k - 1);
      DivPow2(data, k - 1);
    }
  }
}
