/** Fuel needed to launch a module of a given mass (`src/day1.rs`).

    Masses are Rust `i32`s and Rust's `/` truncates toward zero, so the
    division is modelled explicitly and every mass, negative ones included,
    is accepted. */
module Fuel {

  /** Rust's `/` on integers with a positive divisor: truncation toward zero,
      so the remainder takes the sign of the dividend. */
  function TruncDiv(a: int, b: int): (q: int)
    requires b > 0
    ensures a >= 0 ==> 0 <= a - q * b < b
    ensures a < 0 ==> -b < a - q * b <= 0
  {
    if a >= 0 then a / b else -((-a) / b)
  }

  /** A spacecraft module, known by its mass. */
  datatype Module = Module(mass: int)

  /** The first-order fuel estimate `mass / 3 - 2`: the quotient is the
      whole number of thirds, rounded toward zero, less two. */
  function FuelRequiredSimple(m: Module): (f: int)
    ensures m.mass >= 0 ==> 3 * (f + 2) <= m.mass < 3 * (f + 3)
    ensures m.mass < 0 ==> 3 * (f + 2) - 2 <= m.mass <= 3 * (f + 2)
  {
    TruncDiv(m.mass, 3) - 2
  }

  /** Fuel for the mass, plus fuel for that fuel, and so on while the next
      increment is not negative. The total never exceeds half the mass, so
      it cannot overflow an `i32`. */
  function CalcFuel(mass: int): (r: nat)
    ensures r == 0 <==> mass < 9
    ensures mass >= 0 ==> 2 * r <= mass
    decreases if mass < 0 then 0 else mass
  {
    var fuel := TruncDiv(mass, 3) - 2;
    if fuel < 0 then 0 else fuel + CalcFuel(fuel)
  }

  /** Total fuel of a module: the recursive estimate applied to its mass. */
  function FuelRequired(m: Module): (r: nat)
    ensures FuelRequiredSimple(m) < 0 ==> r == 0
    ensures FuelRequiredSimple(m) >= 0 ==> r >= FuelRequiredSimple(m)
  {
    CalcFuel(m.mass)
  }

  /** The recursion unfolds once: a negative increment contributes nothing,
      and otherwise the increment is added to the fuel for the increment. */
  lemma CalcFuelUnfolds(mass: int)
    ensures FuelRequiredSimple(Module(mass)) < 0 ==> CalcFuel(mass) == 0
    ensures var f := FuelRequiredSimple(Module(mass));
            f >= 0 ==> f < mass && CalcFuel(mass) == f + CalcFuel(f)
  {
  }

  /** The same total computed by a loop that follows the chain of fuel
      increments until one goes negative. */
  method TotalFuel(mass: int) returns (total: int)
    ensures total == CalcFuel(mass)
  {
    total := 0;
    var current := mass;
    var fuel := TruncDiv(current, 3) - 2;
    while fuel >= 0
      invariant fuel == TruncDiv(current, 3) - 2
      invariant total + CalcFuel(current) == CalcFuel(mass)
      decreases if current < 0 then 0 else current
    {
      total := total + fuel;
      current := fuel;
      fuel := TruncDiv(current, 3) - 2;
    }
  }

  /** The unit tests' masses and first-order estimates, and a negative mass
      whose quotient rounds toward zero (-4 / 3 is -1, not -2). */
  lemma SimpleFuelExamples()
    ensures FuelRequiredSimple(Module(12)) == 2
    ensures FuelRequiredSimple(Module(14)) == 2
    ensures FuelRequiredSimple(Module(1969)) == 654
    ensures FuelRequiredSimple(Module(-4)) == -3
  {
  }

  /** Fuel for fuel on the same masses: 1969 needs 654 + 216 + 70 + 21 + 5. */
  lemma TotalFuelExamples()
    ensures CalcFuel(12) == 2
    ensures CalcFuel(14) == 2
    ensures CalcFuel(1969) == 966
  {
    assert CalcFuel(5) == 0;
    assert CalcFuel(21) == 5 + CalcFuel(5);
    assert CalcFuel(70) == 21 + CalcFuel(21);
    assert CalcFuel(216) == 70 + CalcFuel(70);
    assert CalcFuel(654) == 216 + CalcFuel(216);
  }
}
