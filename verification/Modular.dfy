/** Quotients and remainders of naturals, with variable divisors. */
module Modular {

  lemma MultiplesApart(m: nat, a: int, b: int)
    ensures a < b ==> m * a + m <= m * b
    ensures m * (a + 1) == m * a + m
  {
    assert m * (a + 1) == m * a + m;
    if a < b {
      MonotoneScale(m, a + 1, b);
    }
  }

  lemma {:induction false} MonotoneScale(m: nat, a: int, b: int)
    requires a <= b
    ensures m * a <= m * b
    decreases b - a
  {
    if a < b {
      MonotoneScale(m, a, b - 1);
      assert m * b == m * (b - 1) + m;
    }
  }

  lemma ModuloUnique(x: int, m: nat, q: int, r: nat)
    requires x == m * q + r && r < m
    ensures x % m == r && x / m == q
  {
    MultiplesApart(m, q, x / m);
    MultiplesApart(m, x / m, q);
  }

  /** Equal remainders are a whole number of laps apart. */
  lemma EqualRemainders(p: nat, q: nat, m: nat, a: nat, b: nat, r: nat)
    requires p == m * a + r && q == m * b + r && p < q
    ensures q >= p + m
  {
    MultiplesApart(m, a, b);
    MultiplesApart(m, b, a);
    MonotoneScale(m, if b <= a then b else a, a);
  }

  lemma NextLap(p: nat, m: nat)
    requires m > 0
    ensures (p + m) % m == p % m
  {
    MultiplesApart(m, p / m, p / m);
    ModuloUnique(p + m, m, p / m + 1, p % m);
  }

  lemma ModuloOfOneLap(p: nat, q: nat, m: nat)
    requires m > 0
    ensures p < q < p + m ==> p % m != q % m
    ensures q == p + m ==> p % m == q % m
  {
    NextLap(p, m);
    if p < q && p % m == q % m {
      EqualRemainders(p, q, m, p / m, q / m, p % m);
    }
  }

  lemma HalveModulo(x: nat, half: nat)
    requires half > 0
    ensures x % (2 * half) == 2 * ((x / 2) % half) + x % 2
  {
    var q, r := (x / 2) / half, (x / 2) % half;
    assert x / 2 == half * q + r;
    assert x == (2 * half) * q + (2 * r + x % 2);
    ModuloUnique(x, 2 * half, q, 2 * r + x % 2);
  }

  lemma ModuloStep(x: nat, m: nat)
    requires m > 0
    ensures (x % m + 1) % m == (x + 1) % m
  {
    var q, r := x / m, x % m;
    MultiplesApart(m, q, q);
    if r + 1 < m {
      ModuloUnique(x + 1, m, q, r + 1);
      ModuloUnique(r + 1, m, 0, r + 1);
    } else {
      ModuloUnique(x + 1, m, q + 1, 0);
      ModuloUnique(r + 1, m, 1, 0);
    }
  }

  /** Subtracting remainders, with any number of laps added, and subtracting what they are of agree
      modulo a lap. */
  lemma ModuloDifference(p: nat, q: nat, m: nat, laps: nat)
    requires m > 0 && laps > 0
    ensures var d := q % m - p % m; (if d >= 0 then d else m * laps + d) % m == (q - p) % m
  {
    var a, b, d := p / m, q / m, q % m - p % m;
    var r := if d >= 0 then d else d + m;
    assert m * (b - a) == m * b - m * a;
    if d >= 0 {
      ModuloUnique(q - p, m, b - a, r);
      ModuloUnique(d, m, 0, r);
    } else {
      assert m * (b - a - 1) == m * (b - a) - m;
      ModuloUnique(q - p, m, b - a - 1, r);
      MultiplesApart(m, laps - 1, laps - 1);
      ModuloUnique(m * laps + d, m, laps - 1, r);
    }
  }
}
