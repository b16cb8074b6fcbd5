/**
 * The unit record shared by the four algorithms. In the game library a unit is
 * an object; here it is a value, and the object identity that the Java code
 * compares with `!=` is the explicit field `id`.
 */
module Units {
  datatype Unit = Unit(
    id: nat,
    name: string,
    unitType: string,
    health: int,
    baseAttack: int,
    cost: int,
    attackType: string,
    attackBonuses: map<string, real>,
    defenceBonuses: map<string, real>,
    x: int,
    y: int)
  {
    /** A unit is alive while its health is positive. */
    predicate Alive() {
      health > 0
    }
  }
}
