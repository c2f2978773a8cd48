/**
 * The combat statistics a chess piece carries (ChessmanBounceData).
 * The source stores them as floats; every value they take is an integer
 * drawn by Random.Range(int, int) and they are only subtracted and
 * compared, so they are integers here.
 */
module BounceData {

  datatype ChessmanBounceData = ChessmanBounceData(strength: int, currentHealth: int, maxHealth: int)

  /** The struct's constructor: fresh statistics are at full health. */
  function NewBounceData(strength: int, maxHealth: int): (d: ChessmanBounceData)
    ensures d.strength == strength
    ensures d.maxHealth == maxHealth
    ensures d.currentHealth == d.maxHealth
  {
    ChessmanBounceData(strength, maxHealth, maxHealth)
  }
}
