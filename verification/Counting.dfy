/** The 8-bit counters of the telemetry packets. */
module Counting {

  /** One more, with wrap-around. */
  function Next8(n: nat): nat {
    (n + 1) % 256
  }

  function One(b: bool): nat {
    if b then 1 else 0
  }

  lemma SmallMod(a: nat, m: nat)
    requires a < m
    ensures a % m == a
  {
  }

  lemma WrapMod(a: nat, m: nat)
    requires 0 < m <= a < m + m
    ensures a % m == a - m
  {
    assert a == m * 1 + (a - m);
    assert (a - m) % m == a - m;
    assert a / m == 1;
  }

  lemma Congruent(x: nat, n: int)
    requires x % 256 == n % 256
    ensures (x + 1) % 256 == (n + 1) % 256 == (x - 255) % 256
  {
    var q := (x - n) / 256;
    assert x == n + 256 * q;
  }

  /** Raising one of two counters raises their sum, modulo the width. */
  lemma FinishedOne(successes: nat, errors: nat, n: int)
    requires successes < 256 && errors < 256 && (successes + errors) % 256 == n % 256
    ensures (Next8(successes) + errors) % 256 == (n + 1) % 256
    ensures (successes + Next8(errors)) % 256 == (n + 1) % 256
  {
    Congruent(successes + errors, n);
    assert Next8(successes) == if successes == 255 then 0 else successes + 1;
    assert Next8(errors) == if errors == 255 then 0 else errors + 1;
  }
}
