/** The game session: the shared state every command and every tick works on,
    the initial research set, and the four command handlers plus the tick. */
module GameStore {
  import opened Config
  import opened Game
  import opened GameLogic
  import opened Tick

  /** Colonization stops once this many planets exist. */
  const PlanetLimit: int := 10

  const InitialColonizationCost: Cost := Cost(10000.0, 5000.0)

  /** The three research items every session starts with, all at level 1 and idle. */
  function InitialResearch(): (rs: map<string, Research>)
    ensures rs.Keys == ResearchKeys
    ensures forall k :: k in rs ==>
      && rs[k].id == k
      && rs[k].level == 1
      && !rs[k].researching
      && rs[k].researchTimeRemaining == 0.0
    ensures rs[ProductionEfficiency].effect == 0.1
    ensures rs[EnergyConsumption].effect == 0.05
    ensures rs[StorageCapacity].effect == 0.2
  {
    map[
      ProductionEfficiency := Research(ProductionEfficiency, "Production Efficiency", 1, 0.1, false, 0.0, Cost(1000.0, 500.0)),
      EnergyConsumption := Research(EnergyConsumption, "Energy Optimization", 1, 0.05, false, 0.0, Cost(1500.0, 750.0)),
      StorageCapacity := Research(StorageCapacity, "Storage Expansion", 1, 0.2, false, 0.0, Cost(2000.0, 1000.0))
    ]
  }

  /** The first planet whose id matches, as an index. */
  function FindPlanet(ps: seq<Planet>, id: string): (r: Option<nat>)
    ensures r.Some? ==> r.value < |ps| && ps[r.value].id == id
    ensures r.Some? ==> forall j :: 0 <= j < r.value ==> ps[j].id != id
    ensures r.None? <==> forall j :: 0 <= j < |ps| ==> ps[j].id != id
  {
    if |ps| == 0 then None
    else if ps[0].id == id then Some(0)
    else match FindPlanet(ps[1..], id)
      case None => None
      case Some(i) => Some(i + 1)
  }

  /** JavaScript truthiness of the active-research id: null and "" are both false. */
  predicate IsSet(active: Option<string>)
  {
    active.Some? && active.value != ""
  }

  /** The colonization cost after one more colony: each component times 1.5, rounded down. */
  function NextColonizationCost(c: Cost): (n: Cost)
    ensures IsWhole(n.iron) && IsWhole(n.kryptonite)
    ensures n.iron <= c.iron * 1.5 < n.iron + 1.0
    ensures n.kryptonite <= c.kryptonite * 1.5 < n.kryptonite + 1.0
  {
    Cost(FloorOfProduct(c.iron, 1.5) as real, FloorOfProduct(c.kryptonite, 1.5) as real)
  }

  /** The colonization cost never decreases, and strictly grows once a component is at
      least 2, so a session's colonization cost rises with every colony founded. */
  lemma ColonizationCostGrows(c: Cost)
    requires IsWhole(c.iron) && IsWhole(c.kryptonite)
    requires c.iron >= 0.0 && c.kryptonite >= 0.0
    ensures IsWhole(NextColonizationCost(c).iron) && IsWhole(NextColonizationCost(c).kryptonite)
    ensures NextColonizationCost(c).iron >= c.iron
    ensures NextColonizationCost(c).kryptonite >= c.kryptonite
    ensures c.iron >= 2.0 ==> NextColonizationCost(c).iron > c.iron
    ensures c.kryptonite >= 2.0 ==> NextColonizationCost(c).kryptonite > c.kryptonite
  {
    WholeTimesOneAndAHalf(c.iron);
    WholeTimesOneAndAHalf(c.kryptonite);
  }

  lemma WholeTimesOneAndAHalf(x: real)
    requires IsWhole(x) && x >= 0.0
    ensures FloorOfProduct(x, 1.5) >= x.Floor
    ensures x >= 2.0 ==> FloorOfProduct(x, 1.5) > x.Floor
  {
    assert x * 1.5 >= x;
    assert x >= 2.0 ==> x * 1.5 >= x + 1.0;
  }

  /** The price of the next level of a research item; the same level-scaled formula
      as for buildings. */
  function ResearchCost(r: Research): (c: Cost)
    ensures IsWhole(c.iron) && IsWhole(c.kryptonite)
    ensures c.iron <= r.baseCost.iron * Pow15(r.level - 1) < c.iron + 1.0
    ensures c.kryptonite <= r.baseCost.kryptonite * Pow15(r.level - 1) < c.kryptonite + 1.0
    ensures r.baseCost.iron >= 0.0 && r.baseCost.kryptonite >= 0.0 ==> c.iron >= 0.0 && c.kryptonite >= 0.0
  {
    ScaledCost(r.baseCost, r.level)
  }

  /** Stocks after paying a price; energy is untouched. */
  function ChargeResources(r: Resources, c: Cost): (s: Resources)
    ensures s.iron + c.iron == r.iron && s.kryptonite + c.kryptonite == r.kryptonite
    ensures s.energy == r.energy
    ensures Affords(r, c) ==> s.iron >= 0.0 && s.kryptonite >= 0.0
    ensures c.iron >= 0.0 && c.kryptonite >= 0.0 ==> s.iron <= r.iron && s.kryptonite <= r.kryptonite
  {
    r.(iron := r.iron - c.iron, kryptonite := r.kryptonite - c.kryptonite)
  }

  /** A planet after an upgrade of one of its buildings has been paid for and started:
      one more slot used, the price deducted, the building marked upgrading with the
      configured duration, and every other building untouched. */
  function BeginUpgrade(p: Planet, buildingId: string, cost: Cost): (q: Planet)
    requires buildingId in p.buildings
    ensures q.usedSpaces == p.usedSpaces + 1
    ensures q.resources == ChargeResources(p.resources, cost)
    ensures q.buildings.Keys == p.buildings.Keys
    ensures q.buildings[buildingId] == p.buildings[buildingId].(upgrading := true, upgradeTimeRemaining := BuildingUpgradeTime)
    ensures forall k :: k in p.buildings && k != buildingId ==> q.buildings[k] == p.buildings[k]
    ensures q == p.(usedSpaces := q.usedSpaces, resources := q.resources, buildings := q.buildings)
  {
    p.(usedSpaces := p.usedSpaces + 1,
       resources := ChargeResources(p.resources, cost),
       buildings := p.buildings[buildingId := p.buildings[buildingId].(upgrading := true, upgradeTimeRemaining := BuildingUpgradeTime)])
  }

  /** Starting an upgrade that passes the gate keeps every planet invariant: the slot
      count stays within capacity and the stocks stay non-negative and within storage. */
  lemma BeginUpgradePreservesPlanet(p: Planet, buildingId: string)
    requires PlanetValid(p)
    requires buildingId in p.buildings
    requires CanUpgradeBuilding(p, p.buildings[buildingId])
    ensures PlanetValid(BeginUpgrade(p, buildingId, CalculateUpgradeCost(p.buildings[buildingId])))
    ensures BeginUpgrade(p, buildingId, CalculateUpgradeCost(p.buildings[buildingId])).usedSpaces
            <= p.totalSpaces
    ensures p.resources.iron >= 0.0 && p.resources.kryptonite >= 0.0 ==>
      && BeginUpgrade(p, buildingId, CalculateUpgradeCost(p.buildings[buildingId])).resources.iron >= 0.0
      && BeginUpgrade(p, buildingId, CalculateUpgradeCost(p.buildings[buildingId])).resources.kryptonite >= 0.0
  {
    var b := p.buildings[buildingId];
    assert BuildingValid(buildingId, b);
    var q := BeginUpgrade(p, buildingId, CalculateUpgradeCost(b));
    forall k | k in q.buildings
      ensures BuildingValid(k, q.buildings[k])
    {
      assert BuildingValid(k, p.buildings[k]);
    }
  }

  /** A research item after it has been started. */
  function BeginResearch(r: Research): (s: Research)
    ensures s.researching && s.researchTimeRemaining == ResearchTime
    ensures s == r.(researching := s.researching, researchTimeRemaining := s.researchTimeRemaining)
  {
    r.(researching := true, researchTimeRemaining := ResearchTime)
  }

  /** A research item consistent with its key and with the countdown discipline. */
  ghost predicate ResearchItemValid(key: string, r: Research)
  {
    && r.id == key
    && r.level >= 1
    && r.baseCost.iron >= 0.0 && r.baseCost.kryptonite >= 0.0
    && (r.researching ==> r.researchTimeRemaining > 0.0)
    && (!r.researching ==> r.researchTimeRemaining == 0.0)
  }

  /** The research set holds the three items, and the item flagged as researching is
      exactly the one the active-research id names. */
  ghost predicate ResearchValid(research: map<string, Research>, active: Option<string>)
  {
    && research.Keys == ResearchKeys
    && (forall k :: k in research ==> ResearchItemValid(k, research[k]))
    && (forall k :: k in research ==> (research[k].researching <==> active == Some(k)))
    && (active.Some? ==> active.value in research)
  }

  /** At most one research item is ever in progress. */
  lemma AtMostOneResearching(research: map<string, Research>, active: Option<string>, k1: string, k2: string)
    requires ResearchValid(research, active)
    requires k1 in research && k2 in research
    requires research[k1].researching && research[k2].researching
    ensures k1 == k2
  {
  }

  /** Every planet is consistent and no two planets share an id. */
  ghost predicate PlanetsValid(ps: seq<Planet>)
  {
    && (forall p :: p in ps ==> PlanetValid(p))
    && (forall i, j :: 0 <= i < j < |ps| ==> ps[i].id != ps[j].id)
  }

  lemma ReplacePlanetKeepsValid(ps: seq<Planet>, i: nat, q: Planet)
    requires PlanetsValid(ps) && i < |ps|
    requires q.id == ps[i].id && PlanetValid(q)
    ensures PlanetsValid(ps[i := q])
  {
  }

  lemma AppendPlanetKeepsValid(ps: seq<Planet>, q: Planet)
    requires PlanetsValid(ps) && PlanetValid(q)
    requires forall i :: 0 <= i < |ps| ==> ps[i].id != q.id
    ensures PlanetsValid(ps + [q])
  {
  }

  /** A tick keeps every planet invariant: slot counts are untouched, stocks end within
      the fresh storage, and upgrade timers stay consistent with their flags. */
  lemma TickKeepsPlanetsValid(ps: seq<Planet>, research: map<string, Research>)
    requires PlanetsValid(ps) && ResearchKeys <= research.Keys
    ensures PlanetsValid(TickPlanets(ps, research))
  {
    var qs := TickPlanets(ps, research);
    forall q | q in qs
      ensures PlanetValid(q)
    {
      var i :| 0 <= i < |qs| && qs[i] == q;
      assert PlanetValid(ps[i]);
    }
  }

  /** Completing the active research clears both its flag and the active-research id, keeping the
      single-active-research invariant. */
  lemma ResearchCompletionKeepsValid(research: map<string, Research>, id: string)
    requires ResearchValid(research, Some(id))
    ensures ResearchValid(research[id := research[id].(level := research[id].level + 1, researching := false, researchTimeRemaining := 0.0)], None)
  {
    var updated := research[id := research[id].(level := research[id].level + 1, researching := false, researchTimeRemaining := 0.0)];
    forall k | k in updated
      ensures ResearchItemValid(k, updated[k])
    {
      assert ResearchItemValid(k, research[k]);
    }
  }

  /** Counting the active research down while time remains keeps the invariant. */
  lemma ResearchCountdownKeepsValid(research: map<string, Research>, id: string, remaining: real)
    requires ResearchValid(research, Some(id)) && remaining > 0.0
    ensures ResearchValid(research[id := research[id].(researchTimeRemaining := remaining)], Some(id))
  {
    var updated := research[id := research[id].(researchTimeRemaining := remaining)];
    forall k | k in updated
      ensures ResearchItemValid(k, updated[k])
    {
      assert ResearchItemValid(k, research[k]);
    }
  }

  /** The invariant of a whole session: one to ten consistent planets with distinct ids,
      a consistent research set, and a whole, non-negative colonization cost. */
  ghost predicate SessionValid(ps: seq<Planet>, research: map<string, Research>, active: Option<string>, cost: Cost)
  {
    && 1 <= |ps| <= PlanetLimit
    && PlanetsValid(ps)
    && ResearchValid(research, active)
    && IsWhole(cost.iron) && IsWhole(cost.kryptonite)
    && cost.iron >= 0.0 && cost.kryptonite >= 0.0
  }

  /** Founding a colony with a fresh id keeps the session invariant. */
  lemma ColonizeKeepsValid(ps: seq<Planet>, research: map<string, Research>, active: Option<string>, cost: Cost, q: Planet)
    requires SessionValid(ps, research, active, cost)
    requires |ps| < PlanetLimit && PlanetValid(q)
    requires forall i :: 0 <= i < |ps| ==> ps[i].id != q.id
    ensures SessionValid(ps + [q], research, active, NextColonizationCost(cost))
  {
    ColonizationCostGrows(cost);
    AppendPlanetKeepsValid(ps, q);
  }

  /** Replacing one planet by a consistent planet with the same id keeps the invariant. */
  lemma ReplaceKeepsValid(ps: seq<Planet>, research: map<string, Research>, active: Option<string>, cost: Cost, i: nat, q: Planet)
    requires SessionValid(ps, research, active, cost)
    requires i < |ps| && q.id == ps[i].id && PlanetValid(q)
    ensures SessionValid(ps[i := q], research, active, cost)
  {
    ReplacePlanetKeepsValid(ps, i, q);
  }

  /** Paying a research price from the viewed planet and starting the item keeps the
      session invariant: the research prices are non-negative, so stocks only fall and
      stay within storage, and the started item is the one the active-research id now names. */
  lemma StartResearchKeepsValid(ps: seq<Planet>, research: map<string, Research>, active: Option<string>, cost: Cost, i: nat, id: string)
    requires SessionValid(ps, research, active, cost)
    requires !IsSet(active) && id in research && !research[id].researching && i < |ps|
    ensures SessionValid(ps[i := ps[i].(resources := ChargeResources(ps[i].resources, ResearchCost(research[id])))],
                         research[id := BeginResearch(research[id])], Some(id), cost)
  {
    var p := ps[i];
    assert PlanetValid(p) by {
      assert p in ps;
    }
    assert ResearchItemValid(id, research[id]);
    var charged := p.(resources := ChargeResources(p.resources, ResearchCost(research[id])));
    assert PlanetValid(charged) by {
      forall k | k in charged.buildings
        ensures BuildingValid(k, charged.buildings[k])
      {
        assert BuildingValid(k, p.buildings[k]);
      }
    }
    ReplacePlanetKeepsValid(ps, i, charged);
    assert active == None;
    var updated := research[id := BeginResearch(research[id])];
    forall k | k in updated
      ensures ResearchItemValid(k, updated[k])
    {
      assert ResearchItemValid(k, research[k]);
    }
  }

  /** The session state. Commands and the tick replace its fields atomically. */
  class GameStore {
    var planets: seq<Planet>
    var currentPlanetId: string
    var research: map<string, Research>
    var activeResearchId: Option<string>
    var colonizationCost: Cost

    ghost predicate Valid()
      reads this
    {
      SessionValid(planets, research, activeResearchId, colonizationCost)
    }

    /** The initial session: one fresh planet, viewed; the initial research set with
        nothing active; the initial colonization cost. */
    constructor (firstId: string, nameDraw: real, sizeDraw: real)
      requires 0.0 <= nameDraw < 1.0 && 0.0 <= sizeDraw < 1.0
      ensures Valid()
      ensures planets == [CreateNewPlanet(firstId, nameDraw, sizeDraw)]
      ensures currentPlanetId == firstId
      ensures research == InitialResearch()
      ensures activeResearchId == None
      ensures colonizationCost == InitialColonizationCost
    {
      planets := [CreateNewPlanet(firstId, nameDraw, sizeDraw)];
      currentPlanetId := firstId;
      research := InitialResearch();
      activeResearchId := None;
      colonizationCost := InitialColonizationCost;
    }

    /** Points the view at a planet; the id is not checked. */
    method SelectPlanet(planetId: string)
      requires Valid()
      modifies this`currentPlanetId
      ensures Valid()
      ensures currentPlanetId == planetId
    {
      currentPlanetId := planetId;
    }

    /** Whether colonization is allowed: room for another planet, and a viewed planet
        whose stocks cover the colonization cost. */
    ghost predicate CanColonize()
      reads this
    {
      var cur := FindPlanet(planets, currentPlanetId);
      && |planets| < PlanetLimit
      && cur.Some?
      && Affords(planets[cur.value].resources, colonizationCost)
    }

    /** Founds a new planet and views it; the cost grows but is not deducted.
        The new planet's id and random draws are supplied by the caller. */
    method ColonizeNewPlanet(newId: string, nameDraw: real, sizeDraw: real)
      requires Valid()
      requires 0.0 <= nameDraw < 1.0 && 0.0 <= sizeDraw < 1.0
      requires forall i :: 0 <= i < |planets| ==> planets[i].id != newId
      modifies this`planets, this`currentPlanetId, this`colonizationCost
      ensures Valid()
      ensures !old(CanColonize()) ==> unchanged(this)
      ensures old(CanColonize()) ==>
        && planets == old(planets) + [CreateNewPlanet(newId, nameDraw, sizeDraw)]
        && currentPlanetId == newId
        && colonizationCost == NextColonizationCost(old(colonizationCost))
    {
      if |planets| >= PlanetLimit {
        return;
      }
      var cur := FindPlanet(planets, currentPlanetId);
      if cur.None? {
        return;
      }
      var current := planets[cur.value];
      if current.resources.iron < colonizationCost.iron
        || current.resources.kryptonite < colonizationCost.kryptonite {
        return;
      }
      var newPlanet := CreateNewPlanet(newId, nameDraw, sizeDraw);
      ColonizeKeepsValid(planets, research, activeResearchId, colonizationCost, newPlanet);
      planets, currentPlanetId, colonizationCost :=
        planets + [newPlanet], newPlanet.id, NextColonizationCost(colonizationCost);
    }

    /** Whether an upgrade of the given building on the given planet is accepted. */
    ghost predicate CanUpgrade(planetId: string, buildingId: string)
      reads this
    {
      var i := FindPlanet(planets, planetId);
      && i.Some?
      && buildingId in planets[i.value].buildings
      && !planets[i.value].buildings[buildingId].upgrading
      && CanUpgradeBuilding(planets[i.value], planets[i.value].buildings[buildingId])
    }

    /** Pays for and starts an upgrade; rejected silently when the planet or building is
        missing, the building is already upgrading, or the gate fails. Only the planet
        with that id changes. */
    method UpgradeBuilding(planetId: string, buildingId: string)
      requires Valid()
      modifies this`planets
      ensures Valid()
      ensures !old(CanUpgrade(planetId, buildingId)) ==> unchanged(this)
      ensures old(CanUpgrade(planetId, buildingId)) ==>
        var i := FindPlanet(old(planets), planetId).value;
        var b := old(planets)[i].buildings[buildingId];
        planets == old(planets)[i := BeginUpgrade(old(planets)[i], buildingId, CalculateUpgradeCost(b))]
      ensures |planets| == |old(planets)|
      ensures forall j :: 0 <= j < |planets| && old(planets)[j].id != planetId ==> planets[j] == old(planets)[j]
    {
      var i := FindPlanet(planets, planetId);
      if i.None? {
        return;
      }
      var planet := planets[i.value];
      if buildingId !in planet.buildings || planet.buildings[buildingId].upgrading {
        return;
      }
      var building := planet.buildings[buildingId];
      if !CanUpgradeBuilding(planet, building) {
        return;
      }
      var upgradeCost := CalculateUpgradeCost(building);
      BeginUpgradePreservesPlanet(planet, buildingId);
      ReplaceKeepsValid(planets, research, activeResearchId, colonizationCost, i.value, BeginUpgrade(planet, buildingId, upgradeCost));
      planets := planets[i.value := BeginUpgrade(planet, buildingId, upgradeCost)];
    }

    /** Whether a research item can be started: nothing active, the item known and idle,
        and the viewed planet able to pay its level-scaled price. */
    ghost predicate CanStartResearch(researchId: string)
      reads this
    {
      var cur := FindPlanet(planets, currentPlanetId);
      && !IsSet(activeResearchId)
      && researchId in research
      && !research[researchId].researching
      && cur.Some?
      && Affords(planets[cur.value].resources, ResearchCost(research[researchId]))
    }

    /** Pays for and starts a research item from the viewed planet; rejected silently
        when one is already active, the item is unknown or busy, there is no viewed
        planet, or the price is not covered. */
    method StartResearch(researchId: string)
      requires Valid()
      modifies this`planets, this`research, this`activeResearchId
      ensures Valid()
      ensures !old(CanStartResearch(researchId)) ==> unchanged(this)
      ensures old(CanStartResearch(researchId)) ==>
        var i := FindPlanet(old(planets), currentPlanetId).value;
        var cost := ResearchCost(old(research)[researchId]);
        && activeResearchId == Some(researchId)
        && planets == old(planets)[i := old(planets)[i].(resources := ChargeResources(old(planets)[i].resources, cost))]
        && research == old(research)[researchId := BeginResearch(old(research)[researchId])]
    {
      if IsSet(activeResearchId) {
        return;
      }
      if researchId !in research || research[researchId].researching {
        return;
      }
      var target := research[researchId];
      var cur := FindPlanet(planets, currentPlanetId);
      if cur.None? {
        return;
      }
      var current := planets[cur.value];
      var researchCost := ResearchCost(target);
      if current.resources.iron < researchCost.iron
        || current.resources.kryptonite < researchCost.kryptonite {
        return;
      }
      var charged := current.(resources := ChargeResources(current.resources, researchCost));
      StartResearchKeepsValid(planets, research, activeResearchId, colonizationCost, cur.value, researchId);
      activeResearchId, planets, research :=
        Some(researchId), planets[cur.value := charged], research[researchId := BeginResearch(target)];
    }

    /** One tick of the whole session: every planet advances from the pre-tick snapshot,
        and the active research item, if any, counts down and completes when its time
        runs out. The planet count, slots, view and colonization cost are untouched. */
    method UpdateResources()
      requires Valid()
      modifies this`planets, this`research, this`activeResearchId
      ensures Valid()
      ensures planets == TickPlanets(old(planets), old(research))
      ensures !IsSet(old(activeResearchId)) ==>
        research == old(research) && activeResearchId == old(activeResearchId)
      ensures IsSet(old(activeResearchId)) ==>
        var id := old(activeResearchId).value;
        var r := old(research)[id];
        if r.researchTimeRemaining - TickDecrement <= 0.0 then
          && research == old(research)[id := r.(level := r.level + 1, researching := false, researchTimeRemaining := 0.0)]
          && activeResearchId == None
        else
          && research == old(research)[id := r.(researchTimeRemaining := r.researchTimeRemaining - TickDecrement)]
          && activeResearchId == old(activeResearchId)
    {
      TickKeepsPlanetsValid(planets, research);
      var planetsAfterTick := TickPlanets(planets, research);
      var updatedResearch := research;
      var updatedActiveResearchId := activeResearchId;
      if IsSet(activeResearchId) {
        var id := activeResearchId.value;
        var activeResearch := updatedResearch[id];
        var newTimeRemaining := activeResearch.researchTimeRemaining - TickDecrement;
        if newTimeRemaining <= 0.0 {
          ResearchCompletionKeepsValid(research, id);
          updatedResearch := updatedResearch[id := activeResearch.(
            level := activeResearch.level + 1,
            researching := false,
            researchTimeRemaining := 0.0)];
          updatedActiveResearchId := None;
        } else {
          ResearchCountdownKeepsValid(research, id, newTimeRemaining);
          updatedResearch := updatedResearch[id := activeResearch.(researchTimeRemaining := newTimeRemaining)];
        }
      }
      planets, research, activeResearchId := planetsAfterTick, updatedResearch, updatedActiveResearchId;
    }
  }

  // ---------------------------------------------------------------------------
  // Scenarios

  /** On a fresh planet with the initial research, the solar plant (200) covers the
      mine and extractor draw (125), so nothing is throttled: one tick adds 100/3600
      iron and 75/3600 kryptonite, reports 200 energy and leaves storage at 10000. */
  lemma FreshPlanetFirstTick(id: string, nameDraw: real, sizeDraw: real)
    requires 0.0 <= nameDraw < 1.0 && 0.0 <= sizeDraw < 1.0
    ensures var q := TickPlanet(CreateNewPlanet(id, nameDraw, sizeDraw), InitialResearch());
      && q.resources == Resources(InitialIron + 100.0 / 3600.0, InitialKryptonite + 75.0 / 3600.0, 200.0)
      && q.storage == Storage(10000.0, 10000.0)
      && q.buildings == CreateNewPlanet(id, nameDraw, sizeDraw).buildings
  {
    var p := CreateNewPlanet(id, nameDraw, sizeDraw);
    var rs := InitialResearch();
    assert EnergyEfficiency(rs) == 1.0;
    ConsumptionOfFive(p.buildings, 1.0);
    assert EnergyConsumptionTotal(p, 1.0) == 125.0;
    assert PlanetEnergyFactor(p, rs) == 1.0;
    assert ResearchBonus(rs[ProductionEfficiency]) == 1.0;
    assert ResearchBonus(rs[StorageCapacity]) == 1.0;
    assert StorageCapacityFor(1, 1.0) == 10000;
    var q := TickPlanet(p, rs);
    assert q.buildings == AdvanceUpgrades(p).buildings;
  }

  /** Energy research is not clamped: at level 22 the efficiency is -0.05, the summed
      draw of a fresh planet turns negative, the throttle becomes -32 and a tick takes
      iron away instead of adding it. */
  lemma EnergyResearchLevel22DrainsIron(id: string, nameDraw: real, sizeDraw: real)
    requires 0.0 <= nameDraw < 1.0 && 0.0 <= sizeDraw < 1.0
    ensures var rs := InitialResearch()[EnergyConsumption := InitialResearch()[EnergyConsumption].(level := 22)];
      && EnergyEfficiency(rs) < 0.0
      && TickDelta(CreateNewPlanet(id, nameDraw, sizeDraw), rs, IronMine) < 0.0
  {
    var p := CreateNewPlanet(id, nameDraw, sizeDraw);
    var rs := InitialResearch()[EnergyConsumption := InitialResearch()[EnergyConsumption].(level := 22)];
    assert EnergyEfficiency(rs) == -0.05;
    ConsumptionOfFive(p.buildings, -0.05);
    assert EnergyConsumptionTotal(p, -0.05) == -6.25;
    assert PlanetEnergyFactor(p, rs) == -32.0;
  }
}
