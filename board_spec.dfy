/**
 * The board and turn orchestrator (BoardManager) as values: what each of
 * its operations does to the grid, the pieces, the active list, the turn,
 * the en passant square and the selection. The class in board_manager.dfy
 * runs the same operations in place and is proved to agree with these
 * functions; the properties of the game are proved here, about them.
 */
module BoardSpec {
  import opened Wrappers
  import opened BounceData
  import opened Commands
  import opened Pieces
  import opened Bounce

  /** Chessmans[x, y], one entry per square. */
  type Grid = map<Tile, Option<PieceId>>

  const Tiles: set<Tile> := set x, y | 0 <= x < BoardSizeX && 0 <= y < BoardSizeY :: (x, y)

  lemma TileIn(t: Tile)
    ensures t in Tiles <==> OnBoard(t.0, t.1)
  {
    if OnBoard(t.0, t.1) {
      assert t == (t.0, t.1);
    }
  }

  function Pos(c: Chessman): Tile {
    (c.currentX, c.currentY)
  }

  /**
   * The orchestrator's state. `pieces` holds every Chessman ever spawned:
   * a killed piece leaves the grid and `active` but its object, and so its
   * record, remains (the selection may still refer to it).
   */
  datatype View = View(
    cells: Grid,                        // Chessmans
    pieces: map<PieceId, Chessman>,     // the Chessman objects
    active: set<PieceId>,               // _activeChessman
    isWhiteTurn: bool,
    enPassant: (int, int),              // EnPassantMove[0], EnPassantMove[1]
    selected: Option<PieceId>,          // _selectedChessman
    nextId: PieceId)                    // the id the next spawned piece gets

  /** The combat engine as the board sees it: its variable store and whether it asks the oracle. */
  datatype Config = Config(vars: Variables, useLLM: bool)

  predicate Configured(cfg: Config) {
    DamageConfigured(cfg.vars) && StatsConfigured(cfg.vars)
  }

  /**
   * The structural invariant: every square is in the grid, an occupied
   * square names a known piece whose coordinates are that square (so no
   * piece is in two squares), every piece stands on the board, and the en
   * passant row is unset (-1) or one of the two rows a double step skips.
   */
  ghost predicate Valid(v: View) {
    && (forall t :: t in v.cells <==> OnBoard(t.0, t.1))
    && (forall t | t in v.cells && v.cells[t].Some? :: v.cells[t].value in v.pieces && Pos(v.pieces[v.cells[t].value]) == t)
    && (forall id | id in v.pieces :: id < v.nextId && OnBoard(v.pieces[id].currentX, v.pieces[id].currentY))
    && v.active <= v.pieces.Keys
    && (v.selected.Some? ==> v.selected.value in v.pieces)
    && v.enPassant.1 in {-1, 2, 5}
  }

  /** A live selected piece belongs to the side whose turn it is. */
  predicate SelectionValid(v: View)
    requires Valid(v)
  {
    v.selected.Some? && v.selected.value in v.active ==> v.pieces[v.selected.value].isWhite == v.isWhiteTurn
  }

  lemma {:induction false} SinglePosition(v: View, id: PieceId, t: Tile)
    requires Valid(v) && t in v.cells && v.cells[t] == Some(id)
    ensures id in v.pieces && Pos(v.pieces[id]) == t
    ensures forall u | u in v.cells && u != t :: v.cells[u] != Some(id)
  {
  }

  // ---------------------------------------------------------------------
  // Primitive changes

  /** The same piece, perhaps on another square: kind, side and statistics unchanged. */
  predicate SamePiece(c: Chessman, before: Chessman) {
    c.kind == before.kind && c.isWhite == before.isWhite && c.bounceData == before.bounceData
  }

  /** KillChessman: empty the piece's own square and drop it from the active list. */
  function Kill(v: View, id: PieceId): (r: View)
    requires Valid(v) && id in v.pieces
    ensures Valid(r)
    ensures r.pieces.Keys == v.pieces.Keys && forall id | id in v.pieces :: SamePiece(r.pieces[id], v.pieces[id])
    ensures r.cells == v.cells[Pos(v.pieces[id]) := None]
    ensures r.active == v.active - {id}
    ensures r.pieces == v.pieces && r.isWhiteTurn == v.isWhiteTurn && r.enPassant == v.enPassant
    ensures r.selected == v.selected && r.nextId == v.nextId
  {
    TileIn(Pos(v.pieces[id]));
    v.(cells := v.cells[Pos(v.pieces[id]) := None], active := v.active - {id})
  }

  /**
   * BounceChessman: a live piece leaves its square for the target and its
   * coordinates follow; a dead piece is killed instead.
   */
  function BouncePiece(v: View, id: PieceId, target: Tile): (r: View)
    requires Valid(v) && id in v.pieces && OnBoard(target.0, target.1)
    ensures Valid(r)
    ensures r.pieces.Keys == v.pieces.Keys && forall id | id in v.pieces :: SamePiece(r.pieces[id], v.pieces[id])
    ensures IsAlive(v.pieces[id]) ==>
      && r.cells == v.cells[Pos(v.pieces[id]) := None][target := Some(id)]
      && r.pieces == v.pieces[id := SetPosition(v.pieces[id], target.0, target.1)]
      && r.active == v.active
    ensures !IsAlive(v.pieces[id]) ==> r == Kill(v, id)
    ensures r.isWhiteTurn == v.isWhiteTurn && r.enPassant == v.enPassant
    ensures r.selected == v.selected && r.nextId == v.nextId
  {
    if IsAlive(v.pieces[id]) then Occupy(v, id, target.0, target.1) else Kill(v, id)
  }

  /** SpawnChessman: a new piece of the prefab's kind and the given side, on (x, y), with fresh statistics. */
  function Spawn(v: View, prefab: int, x: int, y: int, isWhite: bool, cfg: Config, draw: StatDraw): View
    requires Configured(cfg)
  {
    var c := Chessman(PrefabKind(prefab), isWhite, x, y, CreateBounceData(cfg.vars, draw));
    v.(cells := v.cells[(x, y) := Some(v.nextId)],
       pieces := v.pieces[v.nextId := c],
       active := v.active + {v.nextId},
       nextId := v.nextId + 1)
  }

  /**
   * A spawn on the board keeps the board valid: the new id is unused, and
   * the square it overwrites loses its old piece from the grid only.
   */
  lemma {:induction false} SpawnKeepsValid(v: View, prefab: int, x: int, y: int, isWhite: bool, cfg: Config, draw: StatDraw)
    requires Valid(v) && OnBoard(x, y) && Configured(cfg)
    ensures Valid(Spawn(v, prefab, x, y, isWhite, cfg, draw))
    ensures v.nextId !in v.pieces
  {
    var r := Spawn(v, prefab, x, y, isWhite, cfg, draw);
    forall t | t in r.cells && r.cells[t].Some?
      ensures r.cells[t].value in r.pieces && Pos(r.pieces[r.cells[t].value]) == t
    {
      if t != (x, y) {
        assert r.cells[t] == v.cells[t];
      }
    }
  }

  /** The chessmanPrefabs list: six white kinds, then the same six black. */
  function PrefabKind(prefab: int): Kind {
    match prefab % 6
    case 0 => King
    case 1 => Queen
    case 2 => Rook
    case 3 => Bishop
    case 4 => Knight
    case _ => Pawn
  }

  /** The attacker takes the square it moved to (the end of MoveChessman). */
  function Occupy(v: View, id: PieceId, x: int, y: int): (r: View)
    requires Valid(v) && id in v.pieces && OnBoard(x, y)
    ensures Valid(r)
    ensures r.pieces.Keys == v.pieces.Keys && forall id | id in v.pieces :: SamePiece(r.pieces[id], v.pieces[id])
    ensures r.cells == v.cells[Pos(v.pieces[id]) := None][(x, y) := Some(id)]
    ensures r.pieces == v.pieces[id := SetPosition(v.pieces[id], x, y)]
    ensures r.active == v.active && r.isWhiteTurn == v.isWhiteTurn && r.enPassant == v.enPassant
    ensures r.selected == v.selected && r.nextId == v.nextId
  {
    var c := v.pieces[id];
    TileIn(Pos(c));
    TileIn((x, y));
    v.(cells := v.cells[Pos(c) := None][(x, y) := Some(id)],
       pieces := v.pieces[id := SetPosition(c, x, y)])
  }

  /** The fight's damage written back into the two pieces. */
  function Damaged(v: View, a: PieceId, d: PieceId, fight: Fight): (r: View)
    requires Valid(v) && a in v.pieces && d in v.pieces && a != d
    ensures Valid(r)
    ensures r.pieces == v.pieces[a := SetBounceData(v.pieces[a], fight.attacker)][d := SetBounceData(v.pieces[d], fight.defender)]
    ensures r.pieces.Keys == v.pieces.Keys
    ensures r.cells == v.cells && r.active == v.active && r.isWhiteTurn == v.isWhiteTurn
    ensures r.enPassant == v.enPassant && r.selected == v.selected && r.nextId == v.nextId
  {
    v.(pieces := v.pieces[a := SetBounceData(v.pieces[a], fight.attacker)][d := SetBounceData(v.pieces[d], fight.defender)])
  }

  // ---------------------------------------------------------------------
  // Free squares around a square (GetAdjacentFreeSpaces)

  /** The k-th square the two nested loops visit: rows cy-1..cy+1, and in each row columns cx-1..cx+1. */
  function Candidate(cx: int, cy: int, k: nat): Tile {
    (cx - 1 + k % 3, cy - 1 + k / 3)
  }

  predicate IsFree(cells: Grid, t: Tile) {
    OnBoard(t.0, t.1) && t in cells && cells[t].None?
  }

  /** The free squares among the first n candidates, in visiting order. */
  function FreeAmong(cells: Grid, cx: int, cy: int, n: nat): (r: seq<Tile>)
    ensures |r| <= n
    ensures forall i | 0 <= i < |r| :: IsFree(cells, r[i])
  {
    if n == 0 then []
    else
      var t := Candidate(cx, cy, n - 1);
      FreeAmong(cells, cx, cy, n - 1) + (if IsFree(cells, t) then [t] else [])
  }

  function AdjacentFree(cells: Grid, cx: int, cy: int): (r: seq<Tile>)
    ensures |r| <= 9
    ensures forall i | 0 <= i < |r| :: IsFree(cells, r[i])
  {
    FreeAmong(cells, cx, cy, 9)
  }

  /** Row-major order: lower row first, then lower column. */
  predicate Before(a: Tile, b: Tile) {
    a.1 < b.1 || (a.1 == b.1 && a.0 < b.0)
  }

  lemma CandidateOrder(cx: int, cy: int, j: nat, k: nat)
    requires j < k < 9
    ensures Before(Candidate(cx, cy, j), Candidate(cx, cy, k))
  {
  }

  lemma {:induction false} FreeAmongMembers(cells: Grid, cx: int, cy: int, n: nat, t: Tile)
    requires n <= 9
    ensures t in FreeAmong(cells, cx, cy, n) <==> IsFree(cells, t) && exists k :: 0 <= k < n && Candidate(cx, cy, k) == t
  {
    if n > 0 {
      FreeAmongMembers(cells, cx, cy, n - 1, t);
    }
  }

  /** Every square of FreeAmong(n) is a candidate visited before the n-th. */
  lemma {:induction false} FreeAmongBelow(cells: Grid, cx: int, cy: int, n: nat, i: nat)
    requires n <= 9 && i < |FreeAmong(cells, cx, cy, n)|
    ensures exists k :: 0 <= k < n && Candidate(cx, cy, k) == FreeAmong(cells, cx, cy, n)[i]
  {
    var prev := FreeAmong(cells, cx, cy, n - 1);
    if i < |prev| {
      FreeAmongBelow(cells, cx, cy, n - 1, i);
    } else {
      assert FreeAmong(cells, cx, cy, n)[i] == Candidate(cx, cy, n - 1);
    }
  }

  lemma {:induction false} FreeAmongSorted(cells: Grid, cx: int, cy: int, n: nat)
    requires n <= 9
    ensures forall i, j | 0 <= i < j < |FreeAmong(cells, cx, cy, n)| ::
      Before(FreeAmong(cells, cx, cy, n)[i], FreeAmong(cells, cx, cy, n)[j])
  {
    if n > 0 {
      FreeAmongSorted(cells, cx, cy, n - 1);
      var prev := FreeAmong(cells, cx, cy, n - 1);
      var r := FreeAmong(cells, cx, cy, n);
      forall i, j | 0 <= i < j < |r|
        ensures Before(r[i], r[j])
      {
        if j >= |prev| {
          FreeAmongBelow(cells, cx, cy, n - 1, i);
          var k :| 0 <= k < n - 1 && Candidate(cx, cy, k) == prev[i];
          CandidateOrder(cx, cy, k, n - 1);
        }
      }
    }
  }

  /**
   * GetAdjacentFreeSpaces returns exactly the free squares of the board
   * within one step of (cx, cy), the centre included.
   */
  lemma AdjacentFreeMembers(cells: Grid, cx: int, cy: int, t: Tile)
    ensures t in AdjacentFree(cells, cx, cy) <==>
      IsFree(cells, t) && cx - 1 <= t.0 <= cx + 1 && cy - 1 <= t.1 <= cy + 1
  {
    FreeAmongMembers(cells, cx, cy, 9, t);
    if IsFree(cells, t) && cx - 1 <= t.0 <= cx + 1 && cy - 1 <= t.1 <= cy + 1 {
      var k := (t.1 - cy + 1) * 3 + (t.0 - cx + 1);
      assert Candidate(cx, cy, k) == t;
    }
  }

  /** The list is in row-major order, so it holds no square twice. */
  lemma AdjacentFreeOrdered(cells: Grid, cx: int, cy: int)
    ensures forall i, j | 0 <= i < j < |AdjacentFree(cells, cx, cy)| ::
      Before(AdjacentFree(cells, cx, cy)[i], AdjacentFree(cells, cx, cy)[j])
    ensures forall i, j | 0 <= i < j < |AdjacentFree(cells, cx, cy)| ::
      AdjacentFree(cells, cx, cy)[i] != AdjacentFree(cells, cx, cy)[j]
  {
    FreeAmongSorted(cells, cx, cy, 9);
  }

  /** List<T>.Remove: drop the first occurrence, if any. */
  function RemoveFirst(s: seq<Tile>, t: Tile): (r: seq<Tile>)
    ensures t in s ==> |r| == |s| - 1
    ensures t !in s ==> r == s
    ensures forall u | u in r :: u in s
  {
    if s == [] then []
    else if s[0] == t then s[1..]
    else [s[0]] + RemoveFirst(s[1..], t)
  }

  /** Removing a square from a list without repetitions leaves no copy of it. */
  lemma {:induction false} RemoveFirstGone(s: seq<Tile>, t: Tile)
    requires forall i, j | 0 <= i < j < |s| :: s[i] != s[j]
    ensures t !in RemoveFirst(s, t)
  {
    if s != [] {
      if s[0] == t {
        assert forall i | 0 <= i < |s[1..]| :: s[1..][i] == s[i + 1];
      } else {
        RemoveFirstGone(s[1..], t);
      }
    }
  }

  // ---------------------------------------------------------------------
  // CalculateVictory


  /** What a step of the fight leaves behind, or the fault that cut it short (the state as it then is). */
  type Step = (View, Result<FightResult, Fault>)

  /** The squares around the defender that the bounce can use, taken before anyone moves. */
  function DefenderSpaces(v: View, d: PieceId): (r: seq<Tile>)
    requires d in v.pieces
    ensures forall t | t in r :: OnBoard(t.0, t.1) && t in v.cells && v.cells[t].None?
  {
    var p := Pos(v.pieces[d]);
    AdjacentFree(v.cells, p.0, p.1)
  }

  /**
   * The attacker won: the defender bounces to a picked free square (or is
   * killed when there is none), then a dead attacker is killed and the
   * selection cleared.
   */
  function WinBranch(v: View, a: PieceId, d: PieceId, cfg: Config, first: Choice): (r: Step)
    requires Valid(v) && a in v.pieces && d in v.pieces
    ensures Valid(r.0)
    ensures r.1.Success? ==> r.1.value == Win
    ensures r.0.isWhiteTurn == v.isWhiteTurn && r.0.enPassant == v.enPassant && r.0.nextId == v.nextId
    ensures r.0.pieces.Keys == v.pieces.Keys && r.0.active <= v.active
    ensures r.0.selected == v.selected || r.0.selected.None?
    ensures r.1.Failure? ==> r.0.selected == v.selected
    ensures forall id | id in v.pieces :: SamePiece(r.0.pieces[id], v.pieces[id])
  {
    var free := DefenderSpaces(v, d);
    var moved: Result<View, Fault> :=
      if free == [] then Success(Kill(v, d))
      else match BounceToTile(cfg.useLLM, first, free)
        case Failure(e) => Failure(e)
        case Success(t) => Success(BouncePiece(v, d, t));
    match moved
    case Failure(e) => (v, Failure(e))
    case Success(v2) =>
      if IsAlive(v2.pieces[a]) then (v2, Success(Win))
      else (Kill(v2, a).(selected := None), Success(Win))
  }

  /**
   * The attacker lost: it bounces to a picked free square around the
   * defender (a dead attacker is killed there, the selection kept), or with
   * no free square it is killed and the selection cleared; then a dead
   * defender is killed.
   */
  function LoseBranch(v: View, a: PieceId, d: PieceId, cfg: Config, first: Choice): (r: Step)
    requires Valid(v) && a in v.pieces && d in v.pieces
    ensures Valid(r.0)
    ensures r.1.Success? ==> r.1.value == Lose
    ensures r.0.isWhiteTurn == v.isWhiteTurn && r.0.enPassant == v.enPassant && r.0.nextId == v.nextId
    ensures r.0.pieces.Keys == v.pieces.Keys && r.0.active <= v.active
    ensures r.0.selected == v.selected || r.0.selected.None?
    ensures r.1.Failure? ==> r.0.selected == v.selected
    ensures forall id | id in v.pieces :: SamePiece(r.0.pieces[id], v.pieces[id])
  {
    var free := DefenderSpaces(v, d);
    var moved: Result<View, Fault> :=
      if free == [] then Success(Kill(v, a).(selected := None))
      else match BounceToTile(cfg.useLLM, first, free)
        case Failure(e) => Failure(e)
        case Success(t) => Success(BouncePiece(v, a, t));
    match moved
    case Failure(e) => (v, Failure(e))
    case Success(v2) =>
      if IsAlive(v2.pieces[d]) then (v2, Success(Lose))
      else (Kill(v2, d), Success(Lose))
  }

  /**
   * A draw. With free squares and a live defender, the defender bounces to
   * a first pick and the attacker to a second pick made from the list
   * without the first; the two bounces run side by side, so a dead
   * attacker is destroyed by the time the move goes on and the selection
   * then reads as null. With free squares and a dead defender only the
   * defender is killed. With none both are killed and the selection cleared.
   */
  function DrawBranch(v: View, a: PieceId, d: PieceId, cfg: Config, first: Choice, second: Choice): (r: Step)
    requires Valid(v) && a in v.pieces && d in v.pieces && a != d
    ensures Valid(r.0)
    ensures r.1.Success? ==> r.1.value == Draw
    ensures r.0.isWhiteTurn == v.isWhiteTurn && r.0.enPassant == v.enPassant && r.0.nextId == v.nextId
    ensures r.0.pieces.Keys == v.pieces.Keys && r.0.active <= v.active
    ensures r.0.selected == v.selected || r.0.selected.None?
    ensures r.1.Failure? ==> r.0.selected == v.selected
    ensures forall id | id in v.pieces :: SamePiece(r.0.pieces[id], v.pieces[id])
  {
    var free := DefenderSpaces(v, d);
    if free == [] then (Kill(Kill(v, a), d).(selected := None), Success(Draw))
    else if !IsAlive(v.pieces[d]) then (Kill(v, d), Success(Draw))
    else DrawBounces(v, a, d, cfg, free, first, second)
  }

  /** Both pieces bounce: the defender to the first pick, the attacker to a second pick among the rest. */
  function DrawBounces(v: View, a: PieceId, d: PieceId, cfg: Config, free: seq<Tile>, first: Choice, second: Choice): (r: Step)
    requires Valid(v) && a in v.pieces && d in v.pieces && a != d
    requires forall t | t in free :: OnBoard(t.0, t.1)
    ensures Valid(r.0)
    ensures r.1.Success? ==> r.1.value == Draw
    ensures r.0.isWhiteTurn == v.isWhiteTurn && r.0.enPassant == v.enPassant && r.0.nextId == v.nextId
    ensures r.0.pieces.Keys == v.pieces.Keys && r.0.active <= v.active
    ensures r.0.selected == v.selected || r.0.selected.None?
    ensures r.1.Failure? ==> r.0.selected == v.selected
    ensures forall id | id in v.pieces :: SamePiece(r.0.pieces[id], v.pieces[id])
  {
    match BounceToTile(cfg.useLLM, first, free)
    case Failure(e) => (v, Failure(e))
    case Success(t1) =>
      var v2 := BouncePiece(v, d, t1);
      AttackerBounce(v2, a, cfg, RemoveFirst(free, t1), second)
  }

  /** The second half of a draw: the attacker bounces to another free square. */
  function AttackerBounce(v: View, a: PieceId, cfg: Config, free: seq<Tile>, second: Choice): (r: Step)
    requires Valid(v) && a in v.pieces
    requires forall t | t in free :: OnBoard(t.0, t.1)
    ensures Valid(r.0)
    ensures r.1.Success? ==> r.1.value == Draw
    ensures r.0.isWhiteTurn == v.isWhiteTurn && r.0.enPassant == v.enPassant && r.0.nextId == v.nextId
    ensures r.0.pieces.Keys == v.pieces.Keys && r.0.active <= v.active
    ensures r.0.selected == v.selected || r.0.selected.None?
    ensures r.1.Failure? ==> r.0.selected == v.selected
    ensures forall id | id in v.pieces :: SamePiece(r.0.pieces[id], v.pieces[id])
  {
    match BounceToTile(cfg.useLLM, second, free)
    case Failure(e) => (v, Failure(e))
    case Success(t2) =>
      var v3 := BouncePiece(v, a, t2);
      if IsAlive(v.pieces[a]) then (v3, Success(Draw)) else (v3.(selected := None), Success(Draw))
  }

  /** CalculateVictory: resolve the fight, write back the damage, then play out the outcome. */
  function Victory(v: View, a: PieceId, d: PieceId, cfg: Config, first: Choice, second: Choice): (r: Step)
    requires Valid(v) && a in v.pieces && d in v.pieces && a != d && DamageConfigured(cfg.vars)
    ensures Valid(r.0)
    ensures r.0.isWhiteTurn == v.isWhiteTurn && r.0.enPassant == v.enPassant && r.0.nextId == v.nextId
    ensures r.0.pieces.Keys == v.pieces.Keys && r.0.active <= v.active
    ensures r.0.selected == v.selected || r.0.selected.None?
    ensures r.1.Failure? ==> r.0.selected == v.selected
    ensures forall id | id in v.pieces :: r.0.pieces[id].kind == v.pieces[id].kind
  {
    var fight := ResolveFight(cfg.vars, v.pieces[a].bounceData, v.pieces[d].bounceData);
    var v1 := Damaged(v, a, d, fight);
    match fight.result
    case Win => WinBranch(v1, a, d, cfg, first)
    case Lose => LoseBranch(v1, a, d, cfg, first)
    case Draw => DrawBranch(v1, a, d, cfg, first, second)
  }

  // ---------------------------------------------------------------------
  // SpawnAllChessmans and EndGame

  /**
   * The k-th SpawnChessman call of SpawnAllChessmans: prefab index, square
   * and side. The side argument always agrees with the prefab's own side:
   * the first six prefabs are white, the last six black.
   */
  function SpawnCall(k: nat): (r: (int, Tile, bool))
    requires k < 32
    ensures OnBoard(r.1.0, r.1.1)
    ensures 0 <= r.0 < 12 && (r.2 <==> r.0 < 6)
  {
    if k < 8 then (BackRankPrefab(k), (WhiteBackFile(k), 0), true)
    else if k < 16 then (5, (k - 8, 1), true)
    else if k < 24 then (6 + BackRankPrefab(k - 16), (BlackBackFile(k - 16), 7), false)
    else (11, (k - 24, 6), false)
  }

  /** King, queen, two rooks, two bishops, two knights: prefabs 0, 1, 2, 2, 3, 3, 4, 4. */
  function BackRankPrefab(i: nat): int {
    if i < 2 then i else i / 2 + 1
  }

  /** The files of the white back-rank calls: king 3, queen 4, rooks 0 and 7, bishops 2 and 5, knights 1 and 6. */
  function WhiteBackFile(i: nat): (f: int)
    ensures 0 <= f < BoardSizeX
  {
    if i == 0 then 3 else if i == 1 then 4 else PairFile(i)
  }

  /** The black back row mirrors the king and queen: king 4, queen 3, the rest as for white. */
  function BlackBackFile(i: nat): (f: int)
    ensures 0 <= f < BoardSizeX
  {
    if i == 0 then 4 else if i == 1 then 3 else PairFile(i)
  }

  /** Rooks, bishops and knights (calls 2..7): files 0 and 7, 2 and 5, 1 and 6. */
  function PairFile(i: nat): (f: int)
    ensures 0 <= f < BoardSizeX
  {
    var left := if i < 4 then 0 else if i < 6 then 2 else 1;
    if i % 2 == 0 then left else 7 - left
  }

  /** The first k calls, the k-th spawn using the k-th draw of statistics. */
  function Spawns(v: View, cfg: Config, draws: seq<StatDraw>, k: nat): (r: View)
    requires Configured(cfg) && k <= 32 && |draws| >= k
    ensures r.nextId == v.nextId + k
    ensures r.isWhiteTurn == v.isWhiteTurn && r.enPassant == v.enPassant && r.selected == v.selected
  {
    if k == 0 then v
    else
      var call := SpawnCall(k - 1);
      Spawn(Spawns(v, cfg, draws, k - 1), call.0, call.1.0, call.1.1, call.2, cfg, draws[k - 1])
  }

  lemma {:induction false} SpawnsKeepValid(v: View, cfg: Config, draws: seq<StatDraw>, k: nat)
    requires Valid(v) && Configured(cfg) && k <= 32 && |draws| >= k
    ensures Valid(Spawns(v, cfg, draws, k))
  {
    if k > 0 {
      SpawnsKeepValid(v, cfg, draws, k - 1);
      var call := SpawnCall(k - 1);
      SpawnKeepsValid(Spawns(v, cfg, draws, k - 1), call.0, call.1.0, call.1.1, call.2, cfg, draws[k - 1]);
    }
  }

  const EmptyGrid: Grid := map t | t in Tiles :: None

  /** The cleared board SpawnAllChessmans starts from. */
  function Cleared(v: View): (r: View)
    ensures forall t :: t in r.cells <==> OnBoard(t.0, t.1)
    ensures r.active == {} && forall t | t in r.cells :: r.cells[t].None?
    ensures r.pieces == v.pieces && r.nextId == v.nextId && r.isWhiteTurn == v.isWhiteTurn
    ensures r.enPassant == v.enPassant && r.selected == v.selected
  {
    var r := v.(cells := EmptyGrid, active := {});
    assert forall t :: t in r.cells <==> OnBoard(t.0, t.1) by {
      forall t ensures t in r.cells <==> OnBoard(t.0, t.1) {
        TileIn(t);
      }
    }
    r
  }

  /**
   * SpawnAllChessmans: a fresh active list and an empty grid, then the 32
   * pieces in the order of the source. The turn, the en passant square and
   * the selection are not touched.
   */
  function SpawnAll(v: View, cfg: Config, draws: seq<StatDraw>): (r: View)
    requires Configured(cfg) && |draws| >= 32
    ensures r.nextId == v.nextId + 32
    ensures r.isWhiteTurn == v.isWhiteTurn && r.enPassant == v.enPassant && r.selected == v.selected
  {
    Spawns(Cleared(v), cfg, draws, 32)
  }

  lemma {:induction false} SpawnAllValid(v: View, cfg: Config, draws: seq<StatDraw>)
    requires Valid(v) && Configured(cfg) && |draws| >= 32
    ensures Valid(SpawnAll(v, cfg, draws))
  {
    SpawnsKeepValid(Cleared(v), cfg, draws, 32);
  }

  /**
   * EndGame: the old pieces are destroyed (they drop out of the active list
   * with the new one), white is to move, and the board is set up again.
   */
  function EndGame(v: View, cfg: Config, draws: seq<StatDraw>): (r: View)
    requires Configured(cfg) && |draws| >= 32
    ensures r.isWhiteTurn
  {
    SpawnAll(v.(isWhiteTurn := true), cfg, draws)
  }

  // ---------------------------------------------------------------------
  // SelectChessman and MoveChessman

  /**
   * SelectChessman: the piece on (x, y) becomes the selection when there is
   * one, it is of the side to move and its move mask allows something.
   */
  function Select(v: View, x: int, y: int, hasMove: bool): (r: View)
    requires Valid(v) && OnBoard(x, y)
  {
    TileIn((x, y));
    var c := v.cells[(x, y)];
    if c.None? then v
    else if v.pieces[c.value].isWhite != v.isWhiteTurn then v
    else if !hasMove then v
    else v.(selected := c)
  }

  /** How a call to MoveChessman ends. */
  datatype MoveOutcome =
    | Cancelled                 // the square is not allowed: only the selection is dropped
    | GameOver                  // an enemy king was captured
    | Moved(result: FightResult) // the move went through and the turn passed
    | Faulted(fault: Fault)     // an exception ended the move where it stood

  /** The piece an en passant capture removes: the one behind the target square, seen from the mover. */
  function PassedSquare(v: View, x: int, y: int): Tile {
    if v.isWhiteTurn then (x, y - 1) else (x, y + 1)
  }

  /** A pawn reaching the last row is replaced by a queen of the colour that row belongs to, which is then selected. */
  function Promote(v: View, s: PieceId, x: int, y: int, cfg: Config, draw: StatDraw): (r: View)
    requires Valid(v) && s in v.pieces && OnBoard(x, y) && Configured(cfg)
    ensures Valid(r)
  {
    var k := Kill(v, s);
    if y == 7 then
      SpawnKeepsValid(k, 1, x, y, true, cfg, draw);
      Spawn(k, 1, x, y, true, cfg, draw).(selected := Some(k.nextId))
    else if y == 0 then
      SpawnKeepsValid(k, 7, x, y, false, cfg, draw);
      Spawn(k, 7, x, y, false, cfg, draw).(selected := Some(k.nextId))
    else v
  }

  /** The pawn rules of MoveChessman: promotion, then the en passant square from the double step. */
  function PawnRules(v: View, x: int, y: int, cfg: Config, draw: StatDraw): (r: View)
    requires Valid(v) && v.selected.Some? && OnBoard(x, y) && Configured(cfg)
    ensures Valid(r) && r.selected.Some?
  {
    var v1 := Promote(v, v.selected.value, x, y, cfg, draw);
    var s := v1.pieces[v1.selected.value];
    var row :=
      if s.currentY == 1 && y == 3 then y - 1
      else if s.currentY == 6 && y == 4 then y + 1
      else v1.enPassant.1;
    v1.(enPassant := (x, row))
  }

  /**
   * The rest of MoveChessman, after the fight: the en passant capture, the reset of the
   * en passant square, the pawn rules, then the move itself and the change
   * of turn. KillChessman on an empty square raises the exception.
   */
  function AfterFight(v: View, x: int, y: int, fr: FightResult, cfg: Config, promotion: StatDraw): (r: (View, MoveOutcome))
    requires Valid(v) && OnBoard(x, y) && Configured(cfg)
    ensures Valid(r.0)
    ensures r.1 == Moved(fr) || r.1 == Faulted(NullReference)
    ensures r.1.Moved? && (v.selected.None? || v.pieces[v.selected.value].kind != Pawn) ==> r.0.enPassant == (-1, -1)
    ensures r.1.Moved? ==> r.0.enPassant.1 == -1 || r.0.enPassant.1 == 2 || r.0.enPassant.1 == 5
  {
    var passed := PassedSquare(v, x, y);
    TileIn(passed);
    if (x, y) == v.enPassant && v.cells[passed].None? then (v, Faulted(NullReference))
    else
      var v1 := if (x, y) == v.enPassant then Kill(v, v.cells[passed].value) else v;
      (Finish(PawnStage(v1.(enPassant := (-1, -1)), x, y, cfg, promotion), x, y, fr), Moved(fr))
  }

  /** The pawn rules of MoveChessman apply when the selected piece is a pawn. */
  function PawnStage(v: View, x: int, y: int, cfg: Config, promotion: StatDraw): (r: View)
    requires Valid(v) && OnBoard(x, y) && Configured(cfg)
    ensures Valid(r) && r.isWhiteTurn == v.isWhiteTurn
    ensures v.selected.None? || v.pieces[v.selected.value].kind != Pawn ==> r == v
    ensures v.enPassant.1 == -1 ==> r.enPassant.1 == -1 || r.enPassant.1 == 2 || r.enPassant.1 == 5
  {
    if v.selected.Some? && v.pieces[v.selected.value].kind == Pawn then PawnRules(v, x, y, cfg, promotion) else v
  }

  /**
   * The end of MoveChessman: the selected piece, when there still is one and it won,
   * leaves its square for (x, y); then the turn passes and the selection
   * is dropped.
   */
  function Finish(v: View, x: int, y: int, fr: FightResult): (r: View)
    requires Valid(v) && OnBoard(x, y)
    ensures Valid(r)
    ensures r.isWhiteTurn == !v.isWhiteTurn && r.selected.None?
    ensures r.enPassant == v.enPassant && r.active == v.active && r.nextId == v.nextId
    ensures fr != Win || v.selected.None? ==> r.cells == v.cells && r.pieces == v.pieces
  {
    var w := if v.selected.Some? && fr == Win then Occupy(v, v.selected.value, x, y) else v;
    w.(isWhiteTurn := !w.isWhiteTurn, selected := None)
  }

  /** (x, y) holds a piece of the side not to move: moving there starts a fight. */
  predicate Captures(v: View, x: int, y: int)
    requires Valid(v) && OnBoard(x, y)
  {
    TileIn((x, y));
    v.cells[(x, y)].Some? && v.pieces[v.cells[(x, y)].value].isWhite != v.isWhiteTurn
  }

  /** (x, y) holds the enemy king: moving there ends the game. */
  predicate KingCapture(v: View, x: int, y: int)
    requires Valid(v) && OnBoard(x, y)
  {
    Captures(v, x, y) && v.pieces[v.cells[(x, y)].value].kind == King
  }

  /**
   * MoveChessman on (x, y), for the selected live piece. `allowed` is the
   * selection's move mask at (x, y); `first` and `second` decide the bounce
   * squares, `promotion` a promoted queen's statistics and `restart` those
   * of the 32 pieces of a new game.
   */
  function MoveChessman(v: View, allowed: bool, x: int, y: int, cfg: Config, first: Choice, second: Choice,
                        promotion: StatDraw, restart: seq<StatDraw>): (r: (View, MoveOutcome))
    requires Valid(v) && SelectionValid(v) && OnBoard(x, y) && Configured(cfg) && |restart| >= 32
    requires v.selected.Some? && v.selected.value in v.active
    ensures Valid(r.0)
  {
    TileIn((x, y));
    if !allowed then (v.(selected := None), Cancelled)
    else if KingCapture(v, x, y) then
      SpawnAllValid(v.(isWhiteTurn := true), cfg, restart);
      (EndGame(v, cfg, restart), GameOver)
    else
      var fought := Fought(v, x, y, cfg, first, second);
      match fought.1
      case Failure(e) => (fought.0, Faulted(e))
      case Success(fr) => AfterFight(fought.0, x, y, fr, cfg, promotion)
  }

  /** The capture test of MoveChessman: a fight against the enemy piece on (x, y); with none there the move counts as won. */
  function Fought(v: View, x: int, y: int, cfg: Config, first: Choice, second: Choice): (r: Step)
    requires Valid(v) && SelectionValid(v) && OnBoard(x, y) && Configured(cfg)
    requires v.selected.Some? && v.selected.value in v.active
    ensures Valid(r.0)
    ensures r.0.isWhiteTurn == v.isWhiteTurn && r.0.enPassant == v.enPassant && r.0.nextId == v.nextId
    ensures r.0.selected == v.selected || r.0.selected.None?
    ensures r.1.Failure? ==> r.0.selected == v.selected
    ensures !Captures(v, x, y) ==> r == (v, Success(Win))
    ensures r.0.pieces.Keys == v.pieces.Keys
    ensures forall id | id in v.pieces :: r.0.pieces[id].kind == v.pieces[id].kind
  {
    TileIn((x, y));
    if Captures(v, x, y) then Victory(v, v.selected.value, v.cells[(x, y)].value, cfg, first, second)
    else (v, Success(Win))
  }
}
