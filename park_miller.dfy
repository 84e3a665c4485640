/** The Park–Miller "minimal standard" multiplicative generator that both
    DappledLight/tree.ts and DappledLight/lsystem.ts define as `seededRandom`:
    s := s * 16807 mod (2^31 - 1), output (s - 1) / (2^31 - 2). */
module ParkMiller {

  const Modulus: int := 2147483647
  const Multiplier: int := 16807

  /** The generator's state is a non-zero residue modulo 2^31 - 1. */
  predicate ValidState(s: int) {
    1 <= s < Modulus
  }

  /** JavaScript's `%`, whose result takes the sign of the dividend (Dafny's is never negative). */
  function JsRem(a: int, m: int): (r: int)
    requires m > 0
    ensures a >= 0 ==> r == a % m
    ensures -m < r < m && (r == 0 || (r < 0 <==> a < 0))
  {
    if a >= 0 then a % m else -((-a) % m)
  }

  /** One step of the state: `s = (s * 16807 + 0) % 2147483647`. The product
      stays below 2^53 for any state below 2^31, so the double arithmetic is exact. */
  function Step(s: int): int {
    JsRem(s * Multiplier, Modulus)
  }

  /** `count` calls of the closure from state `s`. */
  function StepN(s: int, count: nat): int {
    if count == 0 then s else Step(StepN(s, count - 1))
  }

  /** The value the closure returns for the state it has just stored. */
  function Output(s: int): real {
    (s - 1) as real / 2147483646.0
  }

  /** 16807 is invertible modulo 2^31 - 1 (its inverse is 1407677000), so a
      product `s * 16807` is a multiple of the modulus only when `s` is. */
  lemma {:induction false} MultipleOfModulus(s: int)
    ensures (s * Multiplier) % Modulus == 0 ==> s % Modulus == 0
  {
    var p := s * Multiplier;
    var q := p / Modulus;
    if p % Modulus == 0 {
      assert p == q * Modulus;
      assert Multiplier * 1407677000 == 11017 * Modulus + 1;
      calc {
        s;
        s * (Multiplier * 1407677000 - 11017 * Modulus);
        p * 1407677000 - s * 11017 * Modulus;
        q * Modulus * 1407677000 - s * 11017 * Modulus;
        Modulus * (q * 1407677000 - s * 11017);
      }
    }
  }

  /** A non-zero state never steps to 0. */
  lemma {:induction false} StepNonZero(s: int)
    requires ValidState(s)
    ensures ValidState(Step(s))
  {
    MultipleOfModulus(s);
  }

  /** Any number of steps keeps a valid state valid. */
  lemma {:induction false} StepNValid(s: int, count: nat)
    requires ValidState(s)
    ensures ValidState(StepN(s, count))
  {
    if count > 0 {
      StepNValid(s, count - 1);
      StepNonZero(StepN(s, count - 1));
    }
  }

  /** A state of 0 is a fixed point: a seed that is a multiple of the modulus
      makes every draw `-1 / 2147483646`, outside [0, 1). */
  lemma ZeroIsFixed()
    ensures Step(0) == 0 && Output(0) < 0.0
  {
  }

  /** Stepping keeps the generator valid and its output in [0, 1). */
  lemma {:induction false} StepOutputInUnitInterval(s: int)
    requires ValidState(s)
    ensures ValidState(Step(s)) && 0.0 <= Output(Step(s)) < 1.0
  {
    StepNonZero(s);
  }

  /** The closure returned by `seededRandom(seed)`: an object holding `s`. */
  class SeededRandom {
    var s: int

    constructor (seed: int)
      ensures s == seed
    {
      s := seed;
    }

    /** One call of the closure. */
    method Next() returns (r: real)
      modifies this
      ensures s == Step(old(s)) && r == Output(s)
      ensures ValidState(old(s)) ==> ValidState(s) && 0.0 <= r < 1.0
    {
      s := JsRem(s * 16807 + 0, 2147483647);
      r := (s - 1) as real / 2147483646.0;
      if ValidState(old(s)) {
        StepOutputInUnitInterval(old(s));
      }
    }
  }
}
