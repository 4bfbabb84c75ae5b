/** The per-archetype stat table AIRCRAFT_STATS (src/lib/game-constants.ts). */
module Constants {

  /** `AircraftType` */
  datatype Kind = Fighter | Bomber | Support

  /**
   * One row of the table. `critChance`, `critDamage` and `dodgeChance` are
   * the source's decimal fractions, kept exact as reals; the ability
   * description text is presentation and is not part of the model.
   */
  datatype BaseStats = BaseStats(
    maxHp: int, attack: int, defense: int, range: int, speed: int,
    maxEnergy: int, specialAbilityCost: int,
    critChance: real, critDamage: real, dodgeChance: real)

  function AircraftStats(k: Kind): (s: BaseStats)
    ensures 0 < s.specialAbilityCost <= s.maxEnergy
    ensures s.critDamage == 1.5
    ensures 0 < s.maxHp && 0 < s.range && 0 < s.speed
    ensures 0.0 < s.critChance < 1.0 && 0.0 < s.dodgeChance < 1.0
  {
    match k
    case Fighter => BaseStats(100, 30, 20, 3, 4, 100, 50, 0.15, 1.5, 0.15)
    case Bomber  => BaseStats(120, 50, 10, 2, 3, 100, 75, 0.05, 1.5, 0.05)
    case Support => BaseStats(80, 15, 20, 2, 3, 120, 40, 0.10, 1.5, 0.10)
  }

  /** A fresh unit of any archetype holds enough energy for its special ability. */
  lemma FreshUnitAffordsSpecial(k: Kind)
    ensures AircraftStats(k).specialAbilityCost <= AircraftStats(k).maxEnergy
  {
  }

  /** The fighter is the fastest archetype and has the longest range; the other two share speed 3 and range 2. */
  lemma FighterFastestAndLongestRange(k: Kind)
    ensures AircraftStats(k).speed <= AircraftStats(Fighter).speed == 4
    ensures AircraftStats(k).range <= AircraftStats(Fighter).range == 3
    ensures k != Fighter ==> AircraftStats(k).speed == 3 && AircraftStats(k).range == 2
  {
  }
}
