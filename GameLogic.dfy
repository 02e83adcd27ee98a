/** The cost model: level-scaled prices and the upgrade gate. */
module GameLogic {
  import opened Game

  /** 1.5 raised to an integer power, computed exactly. */
  function Pow15(e: int): (r: real)
    ensures r > 0.0
    ensures e == 0 ==> r == 1.0
    ensures e == 1 ==> r == 1.5
    decreases if e >= 0 then e else -e
  {
    if e == 0 then 1.0
    else if e > 0 then 1.5 * Pow15(e - 1)
    else Pow15(e + 1) / 1.5
  }

  lemma Pow15Step(e: int)
    ensures Pow15(e + 1) == 1.5 * Pow15(e)
  {
  }

  /** Each extra level multiplies by 1.5 > 1, so the power grows with the exponent. */
  lemma {:induction false} Pow15Monotone(a: int, b: int)
    requires a <= b
    ensures Pow15(a) <= Pow15(b)
    decreases b - a
  {
    if a < b {
      Pow15Monotone(a, b - 1);
      Pow15Step(b - 1);
    }
  }

  /** Math.floor of a product, as an integer: the greatest integer not above x * m. */
  function FloorOfProduct(x: real, m: real): (r: int)
    ensures r as real <= x * m < r as real + 1.0
  {
    (x * m).Floor
  }

  lemma FloorOfProductMonotone(x: real, m1: real, m2: real)
    requires x >= 0.0 && m1 <= m2
    ensures FloorOfProduct(x, m1) <= FloorOfProduct(x, m2)
  {
  }

  /** The price of an entity with the given base price at the given level:
      each component is the base component times 1.5^(level - 1), rounded down. */
  function ScaledCost(base: Cost, level: int): (c: Cost)
    ensures base.iron >= 0.0 ==> c.iron >= 0.0
    ensures base.kryptonite >= 0.0 ==> c.kryptonite >= 0.0
    ensures level == 1 && IsWhole(base.iron) && IsWhole(base.kryptonite) ==> c == base
    ensures IsWhole(c.iron) && IsWhole(c.kryptonite)
    ensures c.iron <= base.iron * Pow15(level - 1) < c.iron + 1.0
    ensures c.kryptonite <= base.kryptonite * Pow15(level - 1) < c.kryptonite + 1.0
  {
    Cost(FloorOfProduct(base.iron, Pow15(level - 1)) as real,
         FloorOfProduct(base.kryptonite, Pow15(level - 1)) as real)
  }

  predicate IsWhole(x: real)
  {
    x == x.Floor as real
  }

  /** The price of upgrading a building from its current level: each component is the
      whole number just below or at base * 1.5^(level - 1). */
  function CalculateUpgradeCost(b: Building): (c: Cost)
    ensures IsWhole(c.iron) && IsWhole(c.kryptonite)
    ensures c.iron <= b.baseCost.iron * Pow15(b.level - 1) < c.iron + 1.0
    ensures c.kryptonite <= b.baseCost.kryptonite * Pow15(b.level - 1) < c.kryptonite + 1.0
    ensures b.baseCost.iron >= 0.0 && b.baseCost.kryptonite >= 0.0 ==> c.iron >= 0.0 && c.kryptonite >= 0.0
  {
    ScaledCost(b.baseCost, b.level)
  }

  /** Whether the stocks cover the price, component by component. */
  predicate Affords(r: Resources, c: Cost)
  {
    r.iron >= c.iron && r.kryptonite >= c.kryptonite
  }

  /** The gate the upgrade command and the interface use: not already upgrading,
      a free slot, and stocks covering the level-scaled price. */
  function CanUpgradeBuilding(p: Planet, b: Building): (ok: bool)
    ensures b.upgrading ==> !ok
    ensures ok ==> p.usedSpaces + 1 <= p.totalSpaces
    ensures ok ==> p.resources.iron - CalculateUpgradeCost(b).iron >= 0.0
    ensures ok ==> p.resources.kryptonite - CalculateUpgradeCost(b).kryptonite >= 0.0
    ensures !b.upgrading && p.usedSpaces < p.totalSpaces && Affords(p.resources, CalculateUpgradeCost(b)) ==> ok
  {
    !b.upgrading && p.usedSpaces + 1 <= p.totalSpaces && Affords(p.resources, CalculateUpgradeCost(b))
  }

  /** With a non-negative base price, the price of a higher level is never lower. */
  lemma {:induction false} CostMonotoneInLevel(base: Cost, l1: int, l2: int)
    requires base.iron >= 0.0 && base.kryptonite >= 0.0
    requires l1 <= l2
    ensures ScaledCost(base, l1).iron <= ScaledCost(base, l2).iron
    ensures ScaledCost(base, l1).kryptonite <= ScaledCost(base, l2).kryptonite
  {
    Pow15Monotone(l1 - 1, l2 - 1);
    FloorOfProductMonotone(base.iron, Pow15(l1 - 1), Pow15(l2 - 1));
    FloorOfProductMonotone(base.kryptonite, Pow15(l1 - 1), Pow15(l2 - 1));
  }
}
