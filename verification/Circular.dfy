/** Positions in a circular table of `n` slots. */
module Circular {

  /** The slot `d` steps after `home`. */
  function At(n: nat, home: nat, d: nat): (i: nat)
    requires home < n && d <= n
    ensures d < n ==> i < n
  {
    if home + d < n then home + d else home + d - n
  }

  /** How many steps after `home` slot `i` comes. */
  function Dist(n: nat, home: nat, i: nat): (d: nat)
    requires home < n && i < n
    ensures d < n && At(n, home, d) == i
  {
    if home <= i then i - home else i + n - home
  }

  lemma AtAt(n: nat, home: nat, d: nat, e: nat)
    requires home < n && d < n && d + e < n
    ensures At(n, At(n, home, d), e) == At(n, home, d + e)
  {
  }

  lemma DistAt(n: nat, home: nat, d: nat)
    requires home < n && d < n
    ensures Dist(n, home, At(n, home, d)) == d
  {
  }

  lemma {:induction false} TimesLe(a: nat, b: nat, n: nat)
    requires a < b
    ensures a * n + n <= b * n
  {
    assert b * n == (b - 1) * n + n;
    if a + 1 < b { TimesLe(a, b - 1, n); }
  }

  lemma ModIs(x: nat, n: nat, q: nat, r: nat)
    requires r < n && x == q * n + r
    ensures x % n == r
  {
    var p, m := x / n, x % n;
    assert x == p * n + m;
    if p < q { TimesLe(p, q, n); }
    if q < p { TimesLe(q, p, n); }
  }

  lemma OneTurn(n: nat, r: nat)
    requires r < n
    ensures r % n == r && (r + n) % n == r
  {
    ModIs(r, n, 0, r);
    ModIs(r + n, n, 1, r);
  }

  /** The sources write both with a remainder. */
  lemma Remainders(n: nat, home: nat, d: nat, i: nat)
    requires home < n && d < n && i < n
    ensures At(n, home, d) == (home + d) % n && Dist(n, home, i) == (i + n - home) % n
  {
    OneTurn(n, At(n, home, d));
    OneTurn(n, Dist(n, home, i));
  }
}
