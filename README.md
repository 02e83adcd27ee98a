# Planetary incremental strategy game: simulation engine

A Dafny model of the simulation engine of a browser-based incremental space-strategy
game. A session holds up to ten planets. Each planet has five buildings (an iron mine, a
kryptonite extractor, a solar plant and two storage buildings), slot counts, iron and
kryptonite stocks, and storage ceilings. One research track (production, energy and
storage bonuses) is shared by all planets, with a single active research item at a time.

The model has five modules:

- `Config`: the game's tuning constants. These are the time multiplier, the starting
  stocks and storage, and the durations of upgrades and research.
- `Game`: the entities (`Building`, `Planet`, `Research`, costs, stocks and storage), the
  fixed building and research keys, and `CreateNewPlanet`. The planet id and the two
  uniform random draws are parameters of `CreateNewPlanet`.
- `GameLogic`: the cost model. It holds the exact power `1.5^n`, the level-scaled price
  `floor(base * 1.5^(level - 1))` and the upgrade gate `CanUpgradeBuilding`.
- `Tick`: the per-planet half of one tick, written as pure functions. This covers the
  energy balance and throttle, research-scaled production, and the per-tick delta. It
  also covers storage recomputation and clamping, and the building-upgrade countdown.
- `GameStore`: the session as a class `GameStore` whose fields are the session state
  (`planets`, `currentPlanetId`, `research`, `activeResearchId`, `colonizationCost`).
  - The constructor builds the initial state.
  - The methods are the four command handlers and the tick, `UpdateResources`.
  - The invariant `Valid()` says:
    - every planet holds exactly the five buildings;
    - slots used never exceed slots available;
    - stocks never exceed storage;
    - upgrade timers agree with their flags;
    - planet ids are distinct;
    - the research set holds the three items;
    - at most one item is researching, and it is the one activeResearchId names.

  Every command and the tick preserve `Valid()`. A rejected command leaves the whole
  state unchanged.

Quantities are exact reals. `Math.pow(1.5, n)` is the exact power `Pow15(n)`, and
`Math.floor` is `.Floor`. The energy-research efficiency `1 - (level - 1) * effect` is
modelled as written, without a clamp. At level 22 it is negative, and so are the summed
draw and the throttle, so a tick removes iron instead of adding it
(`EnergyResearchLevel22DrainsIron`).

Behaviours worth noting, all modelled as the code has them:

- The energy throttle divides by `consumption || 1`. Only a draw of exactly zero is
  replaced by one; a positive draw below one is used as it is.
- Storage is floored twice: `floor(floor(10000 * 1.5^(level - 1)) * bonus)`.
- Selecting a planet does not check that the id exists.
- Colonization gates on the colonization cost but deducts nothing.

## Model

| member | source | states |
|---|---|---|
| Game.CreateNewPlanet | src/types/game.ts:77-155 | For draws in [0, 1) the new planet:<br>- has the given id and uses 5 slots;<br>- has 100 to 300 slots;<br>- holds exactly the five building keys, each building with id equal to its key, level 1, not upgrading and no time left;<br>- starts at 5000 iron, 2500 kryptonite and 200 energy, with 10000/10000 storage;<br>- has a solar plant that draws no energy and storage buildings that neither produce nor draw;<br>- satisfies the planet invariant;<br>- is named "Colony " followed by the decimal digits of a number below 1000. |
| GameLogic.Pow15Monotone | src/utils/gameLogic.ts:5-6 | 1.5^a <= 1.5^b whenever a <= b. |
| GameLogic.ScaledCost | src/utils/gameLogic.ts:3-8 | The level-scaled price is non-negative for a non-negative base. At level 1 it equals a whole-number base. |
| GameLogic.CostMonotoneInLevel | src/utils/gameLogic.ts:5-6 | For a non-negative base, the price of a higher level is never lower, in both resources. |
| GameLogic.CanUpgradeBuilding | src/utils/gameLogic.ts:10-19 | False while upgrading. When true: a slot is free and paying the price leaves both stocks non-negative. Conversely, true whenever the building is idle, a slot is free and the stocks cover the price. |
| GameLogic.CalculateUpgradeCost | src/utils/gameLogic.ts:3-8 | Each component of a building's upgrade price is a whole number with price <= base * 1.5^(level - 1) < price + 1, which is the floor; it is non-negative for a non-negative base. |
| GameStore.ResearchCost | src/store/gameStore.ts:273-276 | The research price has the same floor characterisation as the building price: whole, at most base * 1.5^(level - 1) and within 1 of it; non-negative for a non-negative base. |
| GameStore.NextColonizationCost | src/store/gameStore.ts:92-95 | Each component of the next colonization cost is whole and is the floor of cost * 1.5 (at most it, and within 1 of it). |
| Tick.StorageCapacityFor | src/store/gameStore.ts:135-143 | The ceiling is the floor of floor(10000 * 1.5^(level - 1)) * bonus (at most it, within 1 of it), and 10000 at level 1 with no research bonus. |
| Tick.MaxStorage | src/store/gameStore.ts:132-143 | Both ceilings are whole numbers, and each is at least 10000 when its storage building is at level >= 1 and the storage research bonus is at least 1. |
| Tick.EnergyProduction | src/store/gameStore.ts:103-104 | The solar output equals the plant's base production at level 1 and is non-negative for a non-negative base production at level >= 0. |
| Tick.EnergyEfficiency | src/store/gameStore.ts:106-107 | The efficiency is 1 before any energy research (level 1) and never above 1 at level >= 1 with a non-negative effect. |
| Tick.HourlyOutput | src/store/gameStore.ts:120-126 | A zero throttle produces nothing; at level 1 with full power and no research bonus the output is the base production. |
| Tick.PerTick | src/store/gameStore.ts:129-130 | One tick yields 1/3600 of the hourly rate (an hour of 36000 ticks, sped up ten times). |
| Tick.TickDelta | src/store/gameStore.ts:117-130 | An extractor adds nothing in a tick when its base production is zero or the planet's throttle is zero. Its delta is non-negative when its base production, throttle and production bonus are non-negative at level >= 1. In particular it is non-negative on every valid planet whose energy efficiency is non-negative and whose production research is at level >= 1 with a non-negative effect. It is 1/3600 of the hourly output. |
| Tick.ResearchBonus | src/store/gameStore.ts:117-118 | The production or storage multiplier is 1 before any research and at least 1 for level >= 1 with a non-negative effect. |
| Tick.PlanetEnergyFactor | src/store/gameStore.ts:106-114 | A planet's throttle is at most 1. It is exactly 1 when the solar output covers a positive draw, and non-negative on a valid planet while the energy efficiency is non-negative. |
| GameLogic.Pow15 | src/utils/gameLogic.ts:5-6 | 1.5^e is positive for every integer exponent, 1 at exponent 0 and 1.5 at exponent 1. |
| Game.NatToDecimal | src/types/game.ts:82 | The rendering is non-empty, all decimal digits, and has no leading zero for a positive number. |
| Game.DecimalRoundTrip | src/types/game.ts:82 | Reading the rendered digits back gives the number, so different numbers render differently. |
| Tick.EnergyFactor | src/store/gameStore.ts:114 | The throttle:<br>- is at most 1;<br>- is min(1, production) for a zero draw (no division by zero);<br>- is exactly 1 when production covers a positive draw;<br>- is production/draw whenever it is below 1 and the draw is non-zero, in particular for a positive draw production does not cover and for any negative draw with non-negative production (the unclamped energy-research case);<br>- is non-negative for non-negative inputs. |
| Tick.ConsumptionOfFive | src/store/gameStore.ts:109-112 | The reduced draw is the sum of the five buildings' base energy cost times level times efficiency. |
| Tick.ConsumptionNonNegative | src/store/gameStore.ts:109-112 | With non-negative efficiency, base costs and levels, the summed draw is non-negative. |
| Tick.ProducePlanet | src/store/gameStore.ts:101-159 | After production:<br>- storage is the freshly computed ceiling;<br>- each stock is at most its ceiling and at most old stock + delta, and equals one of the two;<br>- energy is replaced by the solar output;<br>- nothing else on the planet changes. |
| Tick.ProduceKeepsStocksNonNegative | src/store/gameStore.ts:117-155 | On a valid planet with non-negative stocks, a non-negative energy efficiency and non-negative research bonuses, production keeps both stocks non-negative. |
| Tick.StorageCapacityAtLeastBase | src/store/gameStore.ts:132-143 | For storage level >= 1 and a bonus >= 1, the ceiling is at least 10000. |
| Tick.StorageCapacityMonotone | src/store/gameStore.ts:135-143 | For a non-negative bonus, a higher storage-building level never gives a lower ceiling. |
| Tick.AdvanceUpgrade | src/store/gameStore.ts:166-183 | An idle building is unchanged. An upgrading building:<br>- completes exactly when its time minus 0.1 is <= 0, becoming one level higher, idle, with zero time;<br>- otherwise keeps its level and has its time reduced by 0.1, still positive.<br>No other field changes. |
| Tick.AdvanceUpgrades | src/store/gameStore.ts:163-185 | Every building of the planet advances its countdown. The keys and the rest of the planet are unchanged. |
| Tick.UpgradeCompletesAfterExactTicks | src/store/gameStore.ts:166-183 | An upgrade started with m ticks' worth of time:<br>- is still running after m - 1 ticks, with one tick left;<br>- completes on exactly the m-th tick with level + 1. |
| Tick.TickPlanet | src/store/gameStore.ts:101-185 | A tick on one planet:<br>- keeps its id, name, slots and building keys;<br>- takes stocks and storage from production on the pre-tick levels and buildings from the countdown;<br>- preserves the planet invariant. |
| Tick.TickPlanets | src/store/gameStore.ts:101-185 | The tick maps every planet of the pre-tick sequence. The count, ids and slots are unchanged, and every planet ends within its storage. |
| GameStore.InitialResearch | src/store/gameStore.ts:7-44 | Exactly the three research keys, each item with id equal to its key, level 1, idle and no time left. The effects are 0.1, 0.05 and 0.2. |
| GameStore.FindPlanet | src/store/gameStore.ts:79 | Returns the index of the first planet with the id, or None exactly when no planet has it. |
| GameStore.ColonizationCostGrows | src/store/gameStore.ts:92-95 | For whole, non-negative costs, floor(cost * 1.5) stays whole and never decreases, and grows strictly once a component is at least 2. |
| GameStore.ChargeResources | src/store/gameStore.ts:243-249 | The new stocks plus the price give the old stocks, and energy is unchanged. Paying an affordable price leaves stocks non-negative, and a non-negative price never raises them. |
| GameStore.BeginUpgrade | src/store/gameStore.ts:238-260 | After a started upgrade:<br>- one more slot is used;<br>- the price is deducted;<br>- the building is the same record with only its flag set and its timer at the configured duration (id, name, level, production, draw and base price kept);<br>- every other building and planet field is unchanged. |
| GameStore.BeginUpgradePreservesPlanet | src/store/gameStore.ts:234-260 | An upgrade that passes the gate keeps the planet invariant, so used slots stay within capacity and stocks stay within storage; non-negative iron and kryptonite stay non-negative. |
| GameStore.BeginResearch | src/store/gameStore.ts:297-304 | The started item is researching with the configured duration, and nothing else changes. |
| GameStore.AtMostOneResearching | src/store/gameStore.ts:264-265 | Under the research invariant, two researching items are the same item. |
| GameStore.TickKeepsPlanetsValid | src/store/gameStore.ts:101-185 | Ticking every planet keeps each planet consistent and the ids distinct. |
| GameStore.ResearchCompletionKeepsValid | src/store/gameStore.ts:195-205 | Completing the active item (level + 1, idle, no time) and clearing activeResearchId keeps the research invariant. |
| GameStore.ResearchCountdownKeepsValid | src/store/gameStore.ts:206-214 | Counting the active item down to a positive time keeps the research invariant with the same activeResearchId. |
| GameStore.ColonizeKeepsValid | src/store/gameStore.ts:87-96 | Appending a consistent planet with a fresh id below the planet limit, and growing the cost, keeps the session invariant. |
| GameStore.StartResearchKeepsValid | src/store/gameStore.ts:283-305 | Charging a research price to a planet and starting the item keeps the session invariant, with activeResearchId naming the started item. |
| GameStore.GameStore.constructor | src/store/gameStore.ts:46-58 | The initial session:<br>- holds one new planet, which is viewed;<br>- has the initial research with nothing active;<br>- has a colonization cost of 10000/5000;<br>- satisfies the invariant. |
| GameStore.GameStore.SelectPlanet | src/store/gameStore.ts:71-73 | currentPlanetId becomes the argument, unchecked. Nothing else changes. |
| GameStore.GameStore.ColonizeNewPlanet | src/store/gameStore.ts:75-97 | Rejected (no change) unless there are fewer than 10 planets, the viewed planet exists and its stocks cover the cost. Otherwise it:<br>- appends exactly the new planet;<br>- views the new planet;<br>- sets each cost component to floor(cost * 1.5);<br>- deducts nothing.<br>The invariant is kept. |
| GameStore.GameStore.UpgradeBuilding | src/store/gameStore.ts:226-261 | Rejected (no change) when the planet or building is missing, the building is upgrading, or the gate fails. Otherwise only that planet changes, becoming BeginUpgrade with the level-scaled price. The invariant is kept. |
| GameStore.GameStore.StartResearch | src/store/gameStore.ts:263-306 | Rejected (no change) when research is active, the item is unknown or busy, the viewed planet is missing or cannot pay. Otherwise:<br>- the viewed planet pays the level-scaled price;<br>- the item starts;<br>- activeResearchId names it.<br>The invariant is kept. |
| GameStore.GameStore.UpdateResources | src/store/gameStore.ts:99-224 | Planets become the tick of the pre-tick planets. The active research item either completes (level + 1, idle, activeResearchId cleared) or counts down by 0.1. With no active item, research is unchanged. The view and colonization cost are unchanged, and the invariant is kept. |
| GameStore.FreshPlanetFirstTick | src/store/gameStore.ts:101-185 | On a new planet with the initial research the throttle is 1. One tick:<br>- adds 100/3600 iron and 75/3600 kryptonite;<br>- reports 200 energy;<br>- keeps 10000/10000 storage and the buildings. |
| GameStore.EnergyResearchLevel22DrainsIron | src/store/gameStore.ts:106-122 | At energy-research level 22 the efficiency is negative and a new planet's per-tick iron delta is negative. |

## Left out

- The presentational components and the periodic driver that invokes the tick are not
  part of this model. `UpdateResources` is a method the caller invokes.
- The store's subscription machinery (`create`/`set`/`get`) is replaced by the fields of
  the `GameStore` class. Each handler assigns its new field values in one step.
- Random draws and generated ids are not modelled. `CreateNewPlanet` and
  `ColonizeNewPlanet` take the planet id and the two uniform draws in [0, 1) as
  parameters.
- ColonizeNewPlanet requires the new id to differ from every existing planet id. A
  generated id is assumed unique; the model states that assumption instead of modelling
  collisions.
- IEEE-754 rounding of `Math.pow`, of the divisions and of the repeated 0.1 decrements
  is not modelled. All arithmetic is exact.
- GameStore.GameStore.UpgradeBuilding, GameStore.GameStore.StartResearch: the source
  rewrites every planet whose id matches. Under the distinct-id invariant that is exactly
  one planet, and the model updates the first match.
- Tick.EnergyConsumptionTotal: the summed draw is taken over the five building keys in
  creation order, which requires a planet to hold exactly those keys. The session
  invariant guarantees this; a planet with other keys is not modelled.
- GameStore.GameStore.UpdateResources: the elapsed time per tick is the fixed 0.1 of the
  source, not a parameter.
- The research countdown has no multi-tick lemma; the building countdown has one
  (`UpgradeCompletesAfterExactTicks`).
- The Dafny `CalculateUpgradeCost` and `CanUpgradeBuilding` are functions over immutable
  datatypes, so they cannot change the planet or the building; that the TypeScript
  functions leave the objects they are given untouched is not stated separately.
- GameStore.GameStore.UpgradeBuilding, GameStore.GameStore.StartResearch: a building or
  research id that names a property every plain object inherits (such as `constructor`,
  `toString` or `__proto__`) passes the source's existence guards and then throws a
  TypeError when the price is computed (the research case only when the viewed planet
  exists). The model treats such ids as absent keys and rejects the command without a
  change; the thrown error is not modelled.
