/** The three-band threshold rule that turns a composite reading into a tier
    (`ClassificarDados`). All thresholds are strict. */
module Classifier {
  import opened Models

  const CriticalTemperature: real := 80.0
  const CriticalFluid: real := 20.0
  const CriticalRotation: real := 1000.0
  const AlertTemperature: real := 70.0
  const AlertFluid: real := 30.0
  const AlertRotation: real := 1500.0

  /** Critical exactly when one of the three critical limits is crossed;
      Normal exactly when every value lies inside the normal band. */
  function Classify(temperature: real, fluid: real, rotation: real): (t: Tier)
    ensures t == Critical <==> temperature > 80.0 || fluid < 20.0 || rotation < 1000.0
    ensures t == Normal <==> temperature <= 70.0 && fluid >= 30.0 && rotation >= 1500.0
  {
    if temperature > CriticalTemperature || fluid < CriticalFluid || rotation < CriticalRotation then Critical
    else if temperature > AlertTemperature || fluid < AlertFluid || rotation < AlertRotation then Alert
    else Normal
  }

  /** Severity order on tiers: Normal < Alert < Critical. */
  function Rank(t: Tier): (n: nat)
    ensures n <= 2
  {
    match t
    case Normal => 0
    case Alert => 1
    case Critical => 2
  }

  /** Alert exactly when no critical limit is crossed but an alert limit is. */
  lemma ClassifyAlert(temperature: real, fluid: real, rotation: real)
    ensures Classify(temperature, fluid, rotation) == Alert
        <==> !(temperature > 80.0 || fluid < 20.0 || rotation < 1000.0)
             && (temperature > 70.0 || fluid < 30.0 || rotation < 1500.0)
  {
  }

  /** A hotter engine, less coolant or a slower rotation never lowers the tier. */
  lemma ClassifyMonotone(t1: real, f1: real, r1: real, t2: real, f2: real, r2: real)
    requires t1 <= t2 && f1 >= f2 && r1 >= r2
    ensures Rank(Classify(t1, f1, r1)) <= Rank(Classify(t2, f2, r2))
  {
  }

  /** The limits themselves do not trigger their band; anything past them does. */
  lemma ClassifyBoundaries()
    ensures Classify(80.0, 50.0, 2000.0) == Alert
    ensures Classify(80.0001, 50.0, 2000.0) == Critical
    ensures Classify(50.0, 20.0, 2000.0) == Alert
    ensures Classify(50.0, 50.0, 1000.0) == Alert
    ensures Classify(70.0, 30.0, 1500.0) == Normal
    ensures Classify(70.0001, 30.0, 1500.0) == Alert
    ensures Classify(50.0, 19.9999, 2000.0) == Critical
    ensures Classify(50.0, 29.9999, 2000.0) == Alert
    ensures Classify(50.0, 50.0, 999.9999) == Critical
    ensures Classify(50.0, 50.0, 1499.9999) == Alert
  {
  }
}
