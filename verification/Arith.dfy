/** The few facts about multiplication and remainders that the counter proofs rest on. */
module Arith {

  lemma MulAtLeast(k: int, c: nat)
    requires k >= 1
    ensures k * c >= c
  {
    if k > 1 {
      MulAtLeast(k - 1, c);
      assert k * c == (k - 1) * c + c;
    }
  }

  lemma DivModUnique(q1: int, r1: int, q2: int, r2: int, c: nat)
    requires q1 * c + r1 == q2 * c + r2
    requires 0 <= r1 < c && 0 <= r2 < c
    ensures q1 == q2 && r1 == r2
  {
    assert (q1 - q2) * c == q1 * c - q2 * c;
    if q1 > q2 {
      MulAtLeast(q1 - q2, c);
    } else if q2 > q1 {
      MulAtLeast(q2 - q1, c);
    }
  }

  lemma ModOfSum(k: int, r: nat, c: nat)
    requires r < c
    ensures (k * c + r) % c == r
  {
    var x := k * c + r;
    assert x == (x / c) * c + x % c;
    DivModUnique(k, r, x / c, x % c, c);
  }

  lemma ModShift(p: int, c: nat)
    requires c > 0
    ensures (p + c) % c == p % c
  {
    var k := p / c;
    assert p + c == (k + 1) * c + p % c;
    ModOfSum(k + 1, p % c, c);
  }

  lemma ModUnique(p: int, q: int, c: nat)
    requires c > 0 && p % c == q % c && p - c < q < p + c
    ensures p == q
  {
    var a, b := p / c, q / c;
    assert p == a * c + p % c && q == b * c + q % c;
    assert (a - b) * c == p - q;
    if a > b {
      MulAtLeast(a - b, c);
    } else if b > a {
      MulAtLeast(b - a, c);
    }
  }

  lemma Regroup(a: int, n: int, b: int, c: int)
    ensures a * (n * c) + b * c == (a * n + b) * c
  {
    assert a * (n * c) == (a * n) * c;
  }

  lemma ModMod(x: nat, n: nat, c: nat)
    requires n > 0 && c > 0 && n * c > 0
    ensures (x % (n * c)) % c == x % c
  {
    var m := n * c;
    var a, y := x / m, x % m;
    var b, r := y / c, y % c;
    assert x == a * m + y && y == b * c + r;
    Regroup(a, n, b, c);
    ModOfSum(a * n + b, r, c);
  }

  lemma ModDouble(x: nat, m: nat)
    requires m > 0
    ensures x % (2 * m) == 2 * ((x / 2) % m) + x % 2
  {
    var q, r := (x / 2) / m, (x / 2) % m;
    assert x / 2 == q * m + r;
    assert q * (2 * m) == 2 * (q * m);
    ModOfSum(q, 2 * r + x % 2, 2 * m);
  }

  lemma ModAdd(x: nat, k: nat, m: nat)
    requires m > 0
    ensures (x % m + k) % m == (x + k) % m
  {
    var z := x % m + k;
    assert x + k == (x / m) * m + z && z == (z / m) * m + z % m;
    assert (x / m + z / m) * m == (x / m) * m + (z / m) * m;
    ModOfSum(x / m + z / m, z % m, m);
  }

  lemma ModSub(a: nat, b: nat, m: nat)
    requires m > 0
    ensures (a % m - b % m) % m == (a - b) % m
  {
    var p, q, z := a / m, b / m, a % m - b % m;
    assert a == p * m + a % m && b == q * m + b % m && z == (z / m) * m + z % m;
    assert (p - q + z / m) * m == p * m - q * m + (z / m) * m;
    ModOfSum(p - q + z / m, z % m, m);
  }
}
