/**
 * The unit and army records the four algorithms work on. The classes behind
 * them (`Unit`, `Army`) come from a library outside this model; only the
 * fields the algorithms read or copy are kept.
 */
module Units {
  import opened Wrappers

  /** A Java `int`: coordinates are stored in this range. */
  type Int32 = i: int | -0x8000_0000 <= i < 0x8000_0000

  const Int32Min: int := -0x8000_0000
  const Int32Max: int := 0x7fff_ffff

  /**
   * A unit (or a unit template in the army catalogue). `id` stands for the
   * Java object's identity: two records with the same id are the same object.
   * The bonus tables are carried, never inspected.
   */
  datatype Unit = Unit(
    id: int,
    name: string,
    unitType: string,
    health: int,
    baseAttack: int,
    cost: int,
    attackType: string,
    attackBonuses: map<string, real>,
    defenceBonuses: map<string, real>,
    x: Int32,
    y: Int32,
    alive: bool)

  /** An army: its list of units (which the library may leave null) and its point total. */
  datatype Army = Army(units: Option<seq<Unit>>, points: int)
}
