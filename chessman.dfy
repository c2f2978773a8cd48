/**
 * The piece entity (Chessman): its side, kind, board coordinates and combat
 * statistics, and the helpers every concrete piece uses to build its move
 * mask. The board hands a piece around by id; the record for an id is what
 * the Chessman object's fields hold.
 */
module Pieces {
  import opened Wrappers
  import opened BounceData

  const BoardSizeX: int := 8
  const BoardSizeY: int := 8

  /** A board coordinate (x, y), x the file and y the rank. */
  type Tile = (int, int)

  predicate OnBoard(x: int, y: int) {
    0 <= x < BoardSizeX && 0 <= y < BoardSizeY
  }

  type PieceId = nat

  /** The concrete subclasses of Chessman. */
  datatype Kind = King | Queen | Rook | Bishop | Knight | Pawn

  datatype Chessman = Chessman(kind: Kind, isWhite: bool, currentX: int, currentY: int, bounceData: ChessmanBounceData)

  function SetPosition(c: Chessman, x: int, y: int): (r: Chessman)
    ensures r.currentX == x && r.currentY == y
    ensures r.kind == c.kind && r.isWhite == c.isWhite && r.bounceData == c.bounceData
  {
    c.(currentX := x, currentY := y)
  }

  /** SetBounceData, without the health-bar update it also makes. */
  function SetBounceData(c: Chessman, d: ChessmanBounceData): (r: Chessman)
    ensures r.bounceData == d
    ensures r.kind == c.kind && r.isWhite == c.isWhite && r.currentX == c.currentX && r.currentY == c.currentY
  {
    c.(bounceData := d)
  }

  predicate IsAlive(c: Chessman) {
    c.bounceData.currentHealth > 0
  }

  /** A piece with fresh statistics is alive exactly when its maximum health is positive. */
  lemma FreshStatsAlive(c: Chessman, strength: int, maxHealth: int)
    requires c.bounceData == NewBounceData(strength, maxHealth)
    ensures c.bounceData.currentHealth <= c.bounceData.maxHealth
    ensures IsAlive(c) <==> maxHealth > 0
  {
  }

  /** The base PossibleMoves: an 8x8 mask with no move allowed. */
  method PossibleMoves() returns (r: array2<bool>)
    ensures fresh(r)
    ensures r.Length0 == BoardSizeX && r.Length1 == BoardSizeY
    ensures forall i, j | 0 <= i < BoardSizeX && 0 <= j < BoardSizeY :: !r[i, j]
  {
    r := new bool[BoardSizeX, BoardSizeY]((i, j) => false);
  }

  /**
   * One step of a ray while a piece builds its move mask: an empty square
   * is allowed and the ray goes on; an occupied square stops the ray and is
   * allowed only when the occupant is on the other side; a square off the
   * board changes nothing and does not stop the ray. `grid` and `pieces`
   * are the board the source reaches through BoardManager.Instance.
   */
  method Move(me: Chessman, x: int, y: int, grid: array2<Option<PieceId>>, pieces: map<PieceId, Chessman>,
              r: array2<bool>) returns (stop: bool)
    requires grid.Length0 == BoardSizeX && grid.Length1 == BoardSizeY
    requires r.Length0 == BoardSizeX && r.Length1 == BoardSizeY
    requires forall i, j | 0 <= i < BoardSizeX && 0 <= j < BoardSizeY && grid[i, j].Some? :: grid[i, j].value in pieces
    modifies r
    ensures stop <==> OnBoard(x, y) && grid[x, y].Some?
    ensures OnBoard(x, y) && grid[x, y].None? ==> r[x, y]
    ensures OnBoard(x, y) && grid[x, y].Some? ==>
      r[x, y] == (old(r[x, y]) || pieces[grid[x, y].value].isWhite != me.isWhite)
    ensures forall i, j | 0 <= i < BoardSizeX && 0 <= j < BoardSizeY && (i, j) != (x, y) :: r[i, j] == old(r[i, j])
  {
    if OnBoard(x, y) {
      var c := grid[x, y];
      if c.None? {
        r[x, y] := true;
      } else {
        if me.isWhite != pieces[c.value].isWhite {
          r[x, y] := true;
        }
        return true;
      }
    }
    return false;
  }
}
