/** The per-planet part of one simulation tick: energy balance, research-scaled
    production, storage recomputation with clamping, and building-upgrade countdowns.
    Every planet is computed from the pre-tick snapshot, so the tick over all planets
    is a map over the old sequence. */
module Tick {
  import opened Config
  import opened Game
  import opened GameLogic

  /** The fixed time slice, in seconds, that one tick takes off every countdown. */
  const TickDecrement: real := 0.1

  /** Hourly rates are divided by this to obtain the per-tick amount. */
  const TicksPerHour: real := 36000.0

  function Min(a: real, b: real): real
  {
    if a <= b then a else b
  }

  /** Instantaneous energy output: the solar plant's base production times its level. */
  function EnergyProduction(p: Planet): (e: real)
    requires SolarPlant in p.buildings
    ensures p.buildings[SolarPlant].level == 1 ==> e == p.buildings[SolarPlant].baseProduction
    ensures p.buildings[SolarPlant].baseProduction >= 0.0 && p.buildings[SolarPlant].level >= 0 ==> e >= 0.0
  {
    p.buildings[SolarPlant].baseProduction * p.buildings[SolarPlant].level as real
  }

  /** The multiplier energy research applies to every building's draw:
      one minus the effect per level gained. It is not clamped, so it turns
      negative once enough levels are researched. */
  function EnergyEfficiency(research: map<string, Research>): (e: real)
    requires EnergyConsumption in research
    ensures research[EnergyConsumption].level == 1 ==> e == 1.0
    ensures research[EnergyConsumption].level >= 1 && research[EnergyConsumption].effect >= 0.0 ==> e <= 1.0
  {
    1.0 - (research[EnergyConsumption].level - 1) as real * research[EnergyConsumption].effect
  }

  /** The multiplier a bonus research item applies: one plus the effect per level gained. */
  function ResearchBonus(r: Research): (b: real)
    ensures r.level == 1 ==> b == 1.0
    ensures r.level >= 1 && r.effect >= 0.0 ==> b >= 1.0
  {
    1.0 + (r.level - 1) as real * r.effect
  }

  /** Total draw of the buildings under the given keys, summed left to right. */
  function ConsumptionOver(bs: map<string, Building>, keys: seq<string>, efficiency: real): real
    requires forall k :: k in keys ==> k in bs
  {
    if keys == [] then 0.0
    else
      ConsumptionOver(bs, keys[..|keys| - 1], efficiency) + Draw(bs[keys[|keys| - 1]], efficiency)
  }

  /** A planet's total energy draw over its five buildings. */
  function EnergyConsumptionTotal(p: Planet, efficiency: real): real
    requires p.buildings.Keys == BuildingKeys
  {
    ConsumptionOver(p.buildings, BuildingOrder, efficiency)
  }

  function Draw(b: Building, efficiency: real): real
  {
    b.baseEnergyCost * b.level as real * efficiency
  }

  /** The summed draw written out over the five buildings. */
  lemma ConsumptionOfFive(bs: map<string, Building>, efficiency: real)
    requires bs.Keys == BuildingKeys
    ensures ConsumptionOver(bs, BuildingOrder, efficiency)
      == Draw(bs[IronMine], efficiency) + Draw(bs[KryptoniteExtractor], efficiency)
         + Draw(bs[SolarPlant], efficiency) + Draw(bs[IronStorage], efficiency)
         + Draw(bs[KryptoniteStorage], efficiency)
  {
    var k4, k3, k2, k1 := BuildingOrder[..4], BuildingOrder[..3], BuildingOrder[..2], BuildingOrder[..1];
    assert k4[..3] == k3 && k3[..2] == k2 && k2[..1] == k1 && k1[..0] == [];
    assert ConsumptionOver(bs, k1, efficiency) == Draw(bs[IronMine], efficiency);
    assert ConsumptionOver(bs, k2, efficiency) == ConsumptionOver(bs, k1, efficiency) + Draw(bs[KryptoniteExtractor], efficiency);
    assert ConsumptionOver(bs, k3, efficiency) == ConsumptionOver(bs, k2, efficiency) + Draw(bs[SolarPlant], efficiency);
    assert ConsumptionOver(bs, k4, efficiency) == ConsumptionOver(bs, k3, efficiency) + Draw(bs[IronStorage], efficiency);
  }

  /** The throttle applied to all production on an under-powered planet. A draw of
      exactly zero is replaced by one, so there is never a division by zero. */
  function EnergyFactor(production: real, consumption: real): (f: real)
    ensures f <= 1.0
    ensures consumption == 0.0 ==> f == Min(1.0, production)
    ensures consumption > 0.0 && production >= consumption ==> f == 1.0
    ensures consumption > 0.0 && production < consumption ==> f * consumption == production
    ensures consumption < 0.0 && production >= 0.0 ==> f * consumption == production
    ensures consumption != 0.0 && f < 1.0 ==> f * consumption == production
    ensures production >= 0.0 && consumption >= 0.0 ==> f >= 0.0
  {
    var divisor := if consumption == 0.0 then 1.0 else consumption;
    QuotientFacts(production, divisor);
    Min(1.0, production / divisor)
  }

  lemma QuotientFacts(x: real, d: real)
    requires d != 0.0
    ensures (x / d) * d == x
    ensures d > 0.0 && x >= d ==> x / d >= 1.0
    ensures d > 0.0 && x < d ==> x / d < 1.0
    ensures d > 0.0 && x >= 0.0 ==> x / d >= 0.0
    ensures d < 0.0 && x >= 0.0 ==> x / d <= 0.0
  {
  }

  /** The hourly output of an extractor, throttled by energy and boosted by research. */
  function HourlyOutput(b: Building, factor: real, bonus: real): (h: real)
    ensures factor == 0.0 ==> h == 0.0
    ensures b.level == 1 && factor == 1.0 && bonus == 1.0 ==> h == b.baseProduction
  {
    b.baseProduction * b.level as real * factor * bonus
  }

  /** An hourly rate converted to the amount added in one tick. */
  function PerTick(hourly: real): (d: real)
    ensures d * 3600.0 == hourly
  {
    hourly / TicksPerHour * TimeMultiplier
  }

  /** The energy throttle of a planet under the given research. */
  function PlanetEnergyFactor(p: Planet, research: map<string, Research>): (f: real)
    requires p.buildings.Keys == BuildingKeys
    requires ResearchKeys <= research.Keys
    ensures f <= 1.0
    ensures (&& EnergyConsumptionTotal(p, EnergyEfficiency(research)) > 0.0
             && EnergyProduction(p) >= EnergyConsumptionTotal(p, EnergyEfficiency(research)))
            ==> f == 1.0
    ensures PlanetValid(p) && EnergyEfficiency(research) >= 0.0 ==> f >= 0.0
  {
    var efficiency := EnergyEfficiency(research);
    assert PlanetValid(p) && efficiency >= 0.0 ==> EnergyConsumptionTotal(p, efficiency) >= 0.0 by {
      if PlanetValid(p) && efficiency >= 0.0 {
        forall k | k in BuildingOrder
          ensures k in p.buildings && p.buildings[k].baseEnergyCost >= 0.0 && p.buildings[k].level >= 0
        {
          assert BuildingValid(k, p.buildings[k]);
        }
        ConsumptionNonNegative(p.buildings, BuildingOrder, efficiency);
      }
    }
    assert PlanetValid(p) ==> EnergyProduction(p) >= 0.0 by {
      if PlanetValid(p) {
        assert BuildingValid(SolarPlant, p.buildings[SolarPlant]);
      }
    }
    EnergyFactor(EnergyProduction(p), EnergyConsumptionTotal(p, efficiency))
  }

  /** The amount the given extractor adds in one tick, before clamping. */
  function TickDelta(p: Planet, research: map<string, Research>, extractor: string): (d: real)
    requires p.buildings.Keys == BuildingKeys
    requires ResearchKeys <= research.Keys
    requires extractor in BuildingKeys
    ensures d * 3600.0 == HourlyOutput(p.buildings[extractor], PlanetEnergyFactor(p, research),
                                       ResearchBonus(research[ProductionEfficiency]))
    ensures p.buildings[extractor].baseProduction == 0.0 ==> d == 0.0
    ensures PlanetEnergyFactor(p, research) == 0.0 ==> d == 0.0
    ensures (&& p.buildings[extractor].baseProduction >= 0.0 && p.buildings[extractor].level >= 1
             && PlanetEnergyFactor(p, research) >= 0.0 && ResearchBonus(research[ProductionEfficiency]) >= 0.0)
            ==> d >= 0.0
    ensures (&& PlanetValid(p) && EnergyEfficiency(research) >= 0.0
             && research[ProductionEfficiency].level >= 1 && research[ProductionEfficiency].effect >= 0.0)
            ==> d >= 0.0
  {
    var b := p.buildings[extractor];
    var factor := PlanetEnergyFactor(p, research);
    var bonus := ResearchBonus(research[ProductionEfficiency]);
    assert b.baseProduction >= 0.0 && b.level >= 1 && factor >= 0.0 && bonus >= 0.0 ==> PerTick(HourlyOutput(b, factor, bonus)) >= 0.0 by {
      if b.baseProduction >= 0.0 && b.level >= 1 && factor >= 0.0 && bonus >= 0.0 {
        HourlyOutputNonNegative(b, factor, bonus);
      }
    }
    assert PlanetValid(p) ==> b.baseProduction >= 0.0 && b.level >= 1 by {
      if PlanetValid(p) {
        assert BuildingValid(extractor, b);
      }
    }
    PerTick(HourlyOutput(p.buildings[extractor], PlanetEnergyFactor(p, research),
                         ResearchBonus(research[ProductionEfficiency])))
  }

  /** Storage capacity for a storage building level and a storage-research multiplier:
      floor(floor(10000 * 1.5^(level - 1)) * bonus). */
  function StorageCapacityFor(level: int, bonus: real): (c: int)
    ensures c as real <= FloorOfProduct(10000.0, Pow15(level - 1)) as real * bonus < c as real + 1.0
    ensures level == 1 && bonus == 1.0 ==> c == 10000
  {
    FloorOfProduct(FloorOfProduct(10000.0, Pow15(level - 1)) as real, bonus)
  }

  /** The storage ceilings a planet has under the given research. */
  function MaxStorage(p: Planet, research: map<string, Research>): (s: Storage)
    requires p.buildings.Keys == BuildingKeys
    requires ResearchKeys <= research.Keys
    ensures IsWhole(s.iron) && IsWhole(s.kryptonite)
    ensures var bonus := ResearchBonus(research[StorageCapacity]);
      && p.buildings[IronStorage].level >= 1 && bonus >= 1.0 ==> s.iron >= 10000.0
    ensures var bonus := ResearchBonus(research[StorageCapacity]);
      && p.buildings[KryptoniteStorage].level >= 1 && bonus >= 1.0 ==> s.kryptonite >= 10000.0
  {
    var bonus := ResearchBonus(research[StorageCapacity]);
    StorageCapacityAtLeastBaseWhen(p.buildings[IronStorage].level, bonus);
    StorageCapacityAtLeastBaseWhen(p.buildings[KryptoniteStorage].level, bonus);
    Storage(StorageCapacityFor(p.buildings[IronStorage].level, bonus) as real,
            StorageCapacityFor(p.buildings[KryptoniteStorage].level, bonus) as real)
  }

  /** The resource half of a tick on one planet: stocks grow by the per-tick output
      but never beyond the freshly computed storage (the excess is discarded), energy
      is replaced by the current production, and nothing else changes. */
  function ProducePlanet(p: Planet, research: map<string, Research>): (q: Planet)
    requires p.buildings.Keys == BuildingKeys
    requires ResearchKeys <= research.Keys
    ensures q.storage == MaxStorage(p, research)
    ensures q.resources.iron <= q.storage.iron
    ensures q.resources.kryptonite <= q.storage.kryptonite
    ensures q.resources.iron <= p.resources.iron + TickDelta(p, research, IronMine)
    ensures q.resources.kryptonite <= p.resources.kryptonite + TickDelta(p, research, KryptoniteExtractor)
    ensures q.resources.iron == p.resources.iron + TickDelta(p, research, IronMine)
            || q.resources.iron == q.storage.iron
    ensures q.resources.kryptonite == p.resources.kryptonite + TickDelta(p, research, KryptoniteExtractor)
            || q.resources.kryptonite == q.storage.kryptonite
    ensures q.resources.energy == EnergyProduction(p)
    ensures q == p.(resources := q.resources, storage := q.storage)
  {
    var storage := MaxStorage(p, research);
    p.(resources := Resources(
         Min(p.resources.iron + TickDelta(p, research, IronMine), storage.iron),
         Min(p.resources.kryptonite + TickDelta(p, research, KryptoniteExtractor), storage.kryptonite),
         EnergyProduction(p)),
       storage := storage)
  }

  /** One tick of a building's upgrade countdown. An idle building is untouched; an
      upgrading one either completes (one level up, flag and timer cleared, with no
      carry of the overshoot) or has its timer shortened by one tick. */
  function AdvanceUpgrade(b: Building): (r: Building)
    ensures !b.upgrading ==> r == b
    ensures b.upgrading ==> (r.upgrading <==> b.upgradeTimeRemaining - TickDecrement > 0.0)
    ensures r == b.(level := r.level, upgrading := r.upgrading, upgradeTimeRemaining := r.upgradeTimeRemaining)
    ensures r.upgrading ==> r.upgradeTimeRemaining > 0.0 && r.level == b.level
    ensures b.upgrading && !r.upgrading ==> r.level == b.level + 1 && r.upgradeTimeRemaining == 0.0
    ensures r.upgrading ==> r.upgradeTimeRemaining == b.upgradeTimeRemaining - TickDecrement
  {
    if !b.upgrading then b
    else
      var remaining := b.upgradeTimeRemaining - TickDecrement;
      if remaining <= 0.0 then b.(level := b.level + 1, upgrading := false, upgradeTimeRemaining := 0.0)
      else b.(upgradeTimeRemaining := remaining)
  }

  /** The countdown half of a tick on one planet: every building advances its upgrade. */
  function AdvanceUpgrades(p: Planet): (q: Planet)
    ensures q.buildings.Keys == p.buildings.Keys
    ensures forall k :: k in p.buildings ==> q.buildings[k] == AdvanceUpgrade(p.buildings[k])
    ensures q == p.(buildings := q.buildings)
  {
    p.(buildings := map k | k in p.buildings :: AdvanceUpgrade(p.buildings[k]))
  }

  /** A whole tick on one planet. Production reads the building levels as they were
      before this tick's upgrades complete. */
  function TickPlanet(p: Planet, research: map<string, Research>): (q: Planet)
    requires p.buildings.Keys == BuildingKeys
    requires ResearchKeys <= research.Keys
    ensures q.id == p.id && q.name == p.name
    ensures q.totalSpaces == p.totalSpaces && q.usedSpaces == p.usedSpaces
    ensures q.buildings.Keys == BuildingKeys
    ensures q.resources == ProducePlanet(p, research).resources
    ensures q.storage == MaxStorage(p, research)
    ensures q.buildings == AdvanceUpgrades(p).buildings
    ensures PlanetValid(p) ==> PlanetValid(q)
  {
    var q := AdvanceUpgrades(ProducePlanet(p, research));
    assert PlanetValid(p) ==> PlanetValid(q) by {
      if PlanetValid(p) {
        forall k | k in q.buildings
          ensures BuildingValid(k, q.buildings[k])
        {
          assert BuildingValid(k, p.buildings[k]);
        }
      }
    }
    q
  }

  /** A tick over all planets: a map over the pre-tick sequence. The number of planets,
      their identities and their slot counts never change, and every planet ends the
      tick within its storage. */
  function TickPlanets(ps: seq<Planet>, research: map<string, Research>): (qs: seq<Planet>)
    requires forall p :: p in ps ==> p.buildings.Keys == BuildingKeys
    requires ResearchKeys <= research.Keys
    ensures |qs| == |ps|
    ensures forall i :: 0 <= i < |ps| ==> qs[i] == TickPlanet(ps[i], research)
    ensures forall i :: 0 <= i < |ps| ==>
      && qs[i].id == ps[i].id
      && qs[i].usedSpaces == ps[i].usedSpaces
      && qs[i].totalSpaces == ps[i].totalSpaces
      && qs[i].resources.iron <= qs[i].storage.iron
      && qs[i].resources.kryptonite <= qs[i].storage.kryptonite
  {
    seq(|ps|, i requires 0 <= i < |ps| => TickPlanet(ps[i], research))
  }

  // ---------------------------------------------------------------------------
  // Properties of the tick

  /** The building's state after n consecutive ticks. */
  function AdvanceUpgradeTimes(b: Building, n: nat): Building
  {
    if n == 0 then b else AdvanceUpgrade(AdvanceUpgradeTimes(b, n - 1))
  }

  /** An upgrade started with m ticks' worth of time is still running, one level
      below completion, after m - 1 ticks, and completes on exactly the m-th tick. */
  lemma {:induction false} UpgradeCompletesAfterExactTicks(b: Building, m: nat)
    requires b.upgrading && m >= 1
    requires b.upgradeTimeRemaining == m as real * TickDecrement
    ensures AdvanceUpgradeTimes(b, m - 1) == b.(upgradeTimeRemaining := TickDecrement)
    ensures AdvanceUpgradeTimes(b, m) == b.(level := b.level + 1, upgrading := false, upgradeTimeRemaining := 0.0)
  {
    UpgradeCountdown(b, m, m - 1);
  }

  lemma {:induction false} UpgradeCountdown(b: Building, m: nat, j: nat)
    requires b.upgrading && j < m
    requires b.upgradeTimeRemaining == m as real * TickDecrement
    ensures AdvanceUpgradeTimes(b, j) == b.(upgradeTimeRemaining := (m - j) as real * TickDecrement)
  {
    if j > 0 {
      UpgradeCountdown(b, m, j - 1);
    }
  }

  /** The storage capacity never falls below the level-1 capacity of 10000 while the
      storage research multiplier is at least one. */
  lemma StorageCapacityAtLeastBase(level: int, bonus: real)
    requires level >= 1 && bonus >= 1.0
    ensures StorageCapacityFor(level, bonus) >= 10000
  {
    Pow15Monotone(0, level - 1);
    FloorOfProductMonotone(10000.0, 1.0, Pow15(level - 1));
    var base := FloorOfProduct(10000.0, Pow15(level - 1)) as real;
    FloorOfProductMonotone(base, 1.0, bonus);
  }

  lemma StorageCapacityAtLeastBaseWhen(level: int, bonus: real)
    ensures level >= 1 && bonus >= 1.0 ==> StorageCapacityFor(level, bonus) >= 10000
  {
    if level >= 1 && bonus >= 1.0 {
      StorageCapacityAtLeastBase(level, bonus);
    }
  }

  /** Raising a storage building's level never lowers its capacity. */
  lemma StorageCapacityMonotone(l1: int, l2: int, bonus: real)
    requires l1 <= l2 && bonus >= 0.0
    ensures StorageCapacityFor(l1, bonus) <= StorageCapacityFor(l2, bonus)
  {
    Pow15Monotone(l1 - 1, l2 - 1);
    FloorOfProductMonotone(10000.0, Pow15(l1 - 1), Pow15(l2 - 1));
    var b1 := FloorOfProduct(10000.0, Pow15(l1 - 1)) as real;
    var b2 := FloorOfProduct(10000.0, Pow15(l2 - 1)) as real;
    FloorOfProductMonotone(bonus, b1, b2);
    assert b1 * bonus == bonus * b1 && b2 * bonus == bonus * b2;
  }

  /** With non-negative draws and efficiency, the summed draw is non-negative. */
  lemma {:induction false} ConsumptionNonNegative(bs: map<string, Building>, keys: seq<string>, efficiency: real)
    requires forall k :: k in keys ==> k in bs
    requires forall k :: k in keys ==> bs[k].baseEnergyCost >= 0.0 && bs[k].level >= 0
    requires efficiency >= 0.0
    ensures ConsumptionOver(bs, keys, efficiency) >= 0.0
  {
    if keys != [] {
      ConsumptionNonNegative(bs, keys[..|keys| - 1], efficiency);
      var last := bs[keys[|keys| - 1]];
      assert last.baseEnergyCost * last.level as real >= 0.0;
      assert Draw(last, efficiency) >= 0.0;
    }
  }

  /** As long as energy research has not pushed the efficiency below zero and the
      bonus research effects are non-negative, a tick never drives a non-negative
      stock below zero. */
  lemma ProduceKeepsStocksNonNegative(p: Planet, research: map<string, Research>)
    requires PlanetValid(p)
    requires ResearchKeys <= research.Keys
    requires EnergyEfficiency(research) >= 0.0
    requires ResearchBonus(research[ProductionEfficiency]) >= 0.0
    requires ResearchBonus(research[StorageCapacity]) >= 0.0
    requires p.resources.iron >= 0.0 && p.resources.kryptonite >= 0.0
    ensures ProducePlanet(p, research).resources.iron >= 0.0
    ensures ProducePlanet(p, research).resources.kryptonite >= 0.0
  {
    var eff := EnergyEfficiency(research);
    ConsumptionNonNegative(p.buildings, BuildingOrder, eff);
    var solar := p.buildings[SolarPlant];
    assert BuildingValid(SolarPlant, solar);
    assert EnergyProduction(p) >= 0.0;
    var factor := PlanetEnergyFactor(p, research);
    assert factor >= 0.0;
    var bonus := ResearchBonus(research[ProductionEfficiency]);
    HourlyOutputNonNegative(p.buildings[IronMine], factor, bonus);
    HourlyOutputNonNegative(p.buildings[KryptoniteExtractor], factor, bonus);
    var storageBonus := ResearchBonus(research[StorageCapacity]);
    StorageNonNegative(p.buildings[IronStorage].level, storageBonus);
    StorageNonNegative(p.buildings[KryptoniteStorage].level, storageBonus);
  }

  lemma HourlyOutputNonNegative(b: Building, factor: real, bonus: real)
    requires b.baseProduction >= 0.0 && b.level >= 1
    requires factor >= 0.0 && bonus >= 0.0
    ensures HourlyOutput(b, factor, bonus) >= 0.0
    ensures PerTick(HourlyOutput(b, factor, bonus)) >= 0.0
  {
    var x := b.baseProduction * b.level as real;
    assert x >= 0.0;
    assert x * factor >= 0.0;
    assert x * factor * bonus >= 0.0;
  }

  lemma StorageNonNegative(level: int, bonus: real)
    requires bonus >= 0.0
    ensures StorageCapacityFor(level, bonus) >= 0
  {
    FloorOfProductMonotone(10000.0, 0.0, Pow15(level - 1));
    var base := FloorOfProduct(10000.0, Pow15(level - 1)) as real;
    FloorOfProductMonotone(bonus, 0.0, base);
    assert base * bonus == bonus * base;
  }
}
