/** Powers of two, and what division and multiplication by them need. */
module Powers {

  function Pow2(n: nat): (p: nat)
    ensures p > 0
  {
    if n == 0 then 1 else 2 * Pow2(n - 1)
  }

  lemma DivMod(a: nat, p: nat)
    requires p > 0
    ensures a == a / p * p + a % p && 0 <= a % p < p
  {
  }

  lemma DivUnique(a: nat, p: nat, q: nat, r: nat)
    requires p > 0 && a == q * p + r && r < p
    ensures a / p == q && a % p == r
  {
    DivMod(a, p);
    MulGap(q, a / p, p);
    MulGap(a / p, q, p);
  }

  lemma MulGap(x: nat, y: nat, p: nat)
    ensures x < y ==> x * p + p <= y * p
  {
    if x < y {
      MulAdd(x, 1, p);
      MulMono(x + 1, y, p);
    }
  }

  lemma MulMono(x: nat, y: nat, p: nat)
    requires x <= y
    ensures x * p <= y * p
  {
  }

  lemma MulAdd(x: nat, y: nat, p: nat)
    ensures (x + y) * p == x * p + y * p
  {
  }

  lemma MulAssoc(x: nat, y: nat, z: nat)
    ensures x * (y * z) == (x * y) * z
  {
  }

  lemma PowSplit(n: nat, m: nat) returns (c: nat)
    requires m <= n
    ensures Pow2(n) == c * Pow2(m) && c > 0
  {
    c := Pow2(n - m);
    PowAdd(m, n - m);
  }

  lemma PowAdd(m: nat, d: nat)
    ensures Pow2(m + d) == Pow2(d) * Pow2(m)
  {
    if d > 0 {
      PowAdd(m, d - 1);
    }
  }
}
