/** The game's tuning knobs, loaded once at start-up and never changed. */
module Config {
  /** Speed multiplier applied to every per-tick production delta. */
  const TimeMultiplier: real := 10.0

  /** Starting stocks of a freshly created planet. */
  const InitialIron: real := 5000.0
  const InitialKryptonite: real := 2500.0
  const InitialEnergy: real := 200.0

  /** Starting storage capacity of a freshly created planet. */
  const InitialIronStorage: real := 10000.0
  const InitialKryptoniteStorage: real := 10000.0

  /** Durations, in seconds, of a building upgrade and of a research item. */
  const BuildingUpgradeTime: real := 5.0
  const ResearchTime: real := 5.0
}
