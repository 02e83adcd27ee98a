/** The entities of the game: resources, buildings, planets and research,
    the fixed building and research keys, and the construction of a new planet. */
module Game {
  import opened Config

  datatype Option<T> = None | Some(value: T)

  /** An iron/kryptonite price (upgrade, research or colonization cost). */
  datatype Cost = Cost(iron: real, kryptonite: real)

  /** A planet's current stocks; energy is the instantaneous production, not a stock. */
  datatype Resources = Resources(iron: real, kryptonite: real, energy: real)

  /** A planet's storage ceilings for the two stockpiled resources. */
  datatype Storage = Storage(iron: real, kryptonite: real)

  datatype Building = Building(
    id: string,
    name: string,
    level: int,
    baseProduction: real,
    baseEnergyCost: real,
    upgrading: bool,
    upgradeTimeRemaining: real,
    baseCost: Cost)

  datatype Planet = Planet(
    id: string,
    name: string,
    totalSpaces: int,
    usedSpaces: int,
    buildings: map<string, Building>,
    resources: Resources,
    storage: Storage)

  datatype Research = Research(
    id: string,
    name: string,
    level: int,
    effect: real,
    researching: bool,
    researchTimeRemaining: real,
    baseCost: Cost)

  // The building keys, in the order a planet's buildings are created.
  const IronMine: string := "ironMine"
  const KryptoniteExtractor: string := "kryptoniteExtractor"
  const SolarPlant: string := "solarPlant"
  const IronStorage: string := "ironStorage"
  const KryptoniteStorage: string := "kryptoniteStorage"

  const BuildingOrder: seq<string> := [IronMine, KryptoniteExtractor, SolarPlant, IronStorage, KryptoniteStorage]
  const BuildingKeys: set<string> := {IronMine, KryptoniteExtractor, SolarPlant, IronStorage, KryptoniteStorage}

  // The research keys.
  const ProductionEfficiency: string := "productionEfficiency"
  const EnergyConsumption: string := "energyConsumption"
  const StorageCapacity: string := "storageCapacity"

  const ResearchKeys: set<string> := {ProductionEfficiency, EnergyConsumption, StorageCapacity}

  /** A building that is consistent with its key and with the upgrade timer discipline:
      an upgrading building always has time left, an idle one has none. */
  ghost predicate BuildingValid(key: string, b: Building)
  {
    && b.id == key
    && b.level >= 1
    && b.baseProduction >= 0.0
    && b.baseEnergyCost >= 0.0
    && b.baseCost.iron >= 0.0 && b.baseCost.kryptonite >= 0.0
    && (b.upgrading ==> b.upgradeTimeRemaining > 0.0)
    && (!b.upgrading ==> b.upgradeTimeRemaining == 0.0)
  }

  /** A planet holds exactly the five buildings, never uses more slots than it has,
      and never stocks more than it can store. */
  ghost predicate PlanetValid(p: Planet)
  {
    && p.buildings.Keys == BuildingKeys
    && (forall k :: k in p.buildings ==> BuildingValid(k, p.buildings[k]))
    && 0 <= p.usedSpaces <= p.totalSpaces
    && p.resources.iron <= p.storage.iron
    && p.resources.kryptonite <= p.storage.kryptonite
  }

  function DecimalDigit(d: nat): (c: char)
    requires d < 10
    ensures '0' <= c <= '9' && (c as int) - ('0' as int) == d
  {
    "0123456789"[d]
  }

  /** The decimal rendering of a natural number, as a template literal prints it:
      digits only, and no leading zero except for zero itself. */
  function NatToDecimal(n: nat): (s: string)
    ensures |s| >= 1
    ensures forall i :: 0 <= i < |s| ==> '0' <= s[i] <= '9'
    ensures n > 0 ==> s[0] != '0'
  {
    if n < 10 then [DecimalDigit(n)] else NatToDecimal(n / 10) + [DecimalDigit(n % 10)]
  }

  /** The number a string of decimal digits denotes, read most significant digit first. */
  function DecimalValue(s: string): nat
    requires forall i :: 0 <= i < |s| ==> '0' <= s[i] <= '9'
  {
    if s == [] then 0
    else DecimalValue(s[..|s| - 1]) * 10 + ((s[|s| - 1] as int) - ('0' as int))
  }

  /** Reading the rendering back gives the number again, so different numbers are
      rendered differently. */
  lemma {:induction false} DecimalRoundTrip(n: nat)
    ensures DecimalValue(NatToDecimal(n)) == n
  {
    if n >= 10 {
      DecimalRoundTrip(n / 10);
      var s := NatToDecimal(n);
      assert s[..|s| - 1] == NatToDecimal(n / 10);
    }
  }

  /** A freshly colonized planet. The identifier and the two uniform draws in [0, 1)
      (for the name's number and for the slot capacity) are supplied by the caller. */
  function CreateNewPlanet(id: string, nameDraw: real, sizeDraw: real): (p: Planet)
    requires 0.0 <= nameDraw < 1.0 && 0.0 <= sizeDraw < 1.0
    ensures p.id == id
    ensures p.usedSpaces == 5
    ensures 100 <= p.totalSpaces <= 300
    ensures p.usedSpaces <= p.totalSpaces
    ensures p.buildings.Keys == BuildingKeys
    ensures forall k :: k in p.buildings ==>
      && p.buildings[k].id == k
      && p.buildings[k].level == 1
      && !p.buildings[k].upgrading
      && p.buildings[k].upgradeTimeRemaining == 0.0
    ensures p.resources == Resources(InitialIron, InitialKryptonite, InitialEnergy)
    ensures p.storage == Storage(InitialIronStorage, InitialKryptoniteStorage)
    ensures p.buildings[SolarPlant].baseEnergyCost == 0.0
    ensures p.buildings[IronStorage].baseProduction == 0.0 && p.buildings[IronStorage].baseEnergyCost == 0.0
    ensures p.buildings[KryptoniteStorage].baseProduction == 0.0 && p.buildings[KryptoniteStorage].baseEnergyCost == 0.0
    ensures PlanetValid(p)
    ensures |p.name| > 7 && p.name[..7] == "Colony "
    ensures forall i :: 7 <= i < |p.name| ==> '0' <= p.name[i] <= '9'
    ensures DecimalValue(p.name[7..]) < 1000
  {
    var number := (nameDraw * 1000.0).Floor;
    DecimalRoundTrip(number);
    assert ("Colony " + NatToDecimal(number))[7..] == NatToDecimal(number);
    var totalSpaces := (sizeDraw * 201.0).Floor + 100;
    Planet(
      id,
      "Colony " + NatToDecimal(number),
      totalSpaces,
      5,
      map[
        IronMine := Building(IronMine, "Iron Mine", 1, 100.0, 50.0, false, 0.0, Cost(100.0, 50.0)),
        KryptoniteExtractor := Building(KryptoniteExtractor, "Kryptonite Extractor", 1, 75.0, 75.0, false, 0.0, Cost(150.0, 75.0)),
        SolarPlant := Building(SolarPlant, "Solar Plant", 1, 200.0, 0.0, false, 0.0, Cost(200.0, 100.0)),
        IronStorage := Building(IronStorage, "Iron Storage", 1, 0.0, 0.0, false, 0.0, Cost(100.0, 50.0)),
        KryptoniteStorage := Building(KryptoniteStorage, "Kryptonite Storage", 1, 0.0, 0.0, false, 0.0, Cost(100.0, 50.0))
      ],
      Resources(InitialIron, InitialKryptonite, InitialEnergy),
      Storage(InitialIronStorage, InitialKryptoniteStorage))
  }
}
