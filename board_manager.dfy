/**
 * The BoardManager object: the 8x8 Chessmans array, the active list, the
 * turn, the en passant square, the selection and the allowed-move mask,
 * changed in place by its operations. Each method is proved to leave the
 * state that the matching function of BoardSpec computes from the state
 * before the call, and to keep the board valid.
 */
module Board {
  import opened Wrappers
  import opened BounceData
  import opened Pieces
  import opened Bounce
  import opened Commands
  import opened BoardSpec
  import opened MoveFacts
  import BoardFacts

  class BoardManager {
    var chessmans: array2<Option<PieceId>>    // Chessmans
    var pieces: map<PieceId, Chessman>        // the Chessman objects, by id
    var active: set<PieceId>                  // _activeChessman
    var isWhiteTurn: bool
    var enPassantMove: array<int>             // EnPassantMove
    var selected: Option<PieceId>             // _selectedChessman
    var allowedMoves: array2<bool>            // _allowedMoves
    var nextId: PieceId
    const cfg: Config                         // the combat engine's variable store and oracle switch

    ghost var cells: Grid                     // the squares of Chessmans, as BoardSpec sees them

    /** The arrays have the sizes the source allocates, and `cells` mirrors Chessmans. */
    ghost predicate Shape()
      reads this, chessmans
    {
      && chessmans.Length0 == BoardSizeX && chessmans.Length1 == BoardSizeY
      && enPassantMove.Length == 2
      && allowedMoves.Length0 == BoardSizeX && allowedMoves.Length1 == BoardSizeY
      && (forall t: Tile :: t in cells <==> OnBoard(t.0, t.1))
      && (forall t: Tile | OnBoard(t.0, t.1) :: cells[t] == chessmans[t.0, t.1])
    }

    /** The object's state as the value BoardSpec reasons about. */
    ghost function State(): View
      reads this, enPassantMove
      requires enPassantMove.Length == 2
    {
      View(cells, pieces, active, isWhiteTurn, (enPassantMove[0], enPassantMove[1]), selected, nextId)
    }

    ghost predicate Valid()
      reads this, chessmans, enPassantMove
    {
      Shape() && BoardSpec.Valid(State()) && SelectionValid(State()) && Configured(cfg)
    }

    /**
     * Start: the combat engine runs its initialisation commands, the 32
     * pieces are spawned on an empty board, white is to move and no en
     * passant square is set.
     */
    constructor (settings: BounceMechanicSettings, draws: seq<StatDraw>)
      requires Configured(Config(RunAll(map[], settings.initialisationCommands), settings.useLLM)) && |draws| >= 32
      ensures Valid() && State() == SpawnAll(View(EmptyGrid, map[], {}, true, (-1, -1), None, 0), cfg, draws)
      ensures cfg == Config(RunAll(map[], settings.initialisationCommands), settings.useLLM)
    {
      var bounceSystem := new BounceSystem(settings);
      cfg := Config(bounceSystem.commandSystem.variables, bounceSystem.useLLM);
      chessmans := new Option<PieceId>[BoardSizeX, BoardSizeY]((i, j) => None);
      pieces := map[];
      active := {};
      isWhiteTurn := true;
      enPassantMove := new int[2] [-1, -1];
      selected := None;
      allowedMoves := new bool[BoardSizeX, BoardSizeY]((i, j) => false);
      nextId := 0;
      cells := EmptyGrid;
      new;
      ghost var v0 := State();
      forall t: Tile
        ensures t in v0.cells <==> OnBoard(t.0, t.1)
      {
        TileIn(t);
      }
      SpawnAllChessmans(draws);
      SpawnAllValid(v0, cfg, draws);
    }

    /** `Chessmans[x, y] = c`, and its mirror. */
    method SetSquare(x: int, y: int, c: Option<PieceId>)
      requires Shape() && OnBoard(x, y)
      modifies chessmans, `cells
      ensures Shape() && cells == old(cells)[(x, y) := c]
    {
      chessmans[x, y] := c;
      cells := cells[(x, y) := c];
    }

    /** KillChessman: the piece's own square empties and it leaves the active list. */
    method KillChessman(id: PieceId)
      requires Shape() && BoardSpec.Valid(State()) && id in pieces
      modifies this, chessmans
      ensures Shape() && chessmans == old(chessmans) && enPassantMove == old(enPassantMove) && allowedMoves == old(allowedMoves)
      ensures State() == Kill(old(State()), id)
    {
      var c := pieces[id];
      SetSquare(c.currentX, c.currentY, None);
      active := active - {id};
    }

    /** The piece leaves its square for (x, y) and its coordinates follow (as BounceChessman and the end of MoveChessman do). */
    method Relocate(id: PieceId, x: int, y: int)
      requires Shape() && BoardSpec.Valid(State()) && id in pieces && OnBoard(x, y)
      modifies this, chessmans
      ensures Shape() && chessmans == old(chessmans) && enPassantMove == old(enPassantMove) && allowedMoves == old(allowedMoves)
      ensures State() == Occupy(old(State()), id, x, y)
    {
      var c := pieces[id];
      SetSquare(c.currentX, c.currentY, None);
      pieces := pieces[id := SetPosition(c, x, y)];
      SetSquare(x, y, Some(id));
    }

    /** BounceChessman: a live piece moves to the target square; a dead one is killed. */
    method BounceChessman(id: PieceId, target: Tile)
      requires Shape() && BoardSpec.Valid(State()) && id in pieces && OnBoard(target.0, target.1)
      modifies this, chessmans
      ensures Shape() && chessmans == old(chessmans) && enPassantMove == old(enPassantMove) && allowedMoves == old(allowedMoves)
      ensures State() == BouncePiece(old(State()), id, target)
    {
      if IsAlive(pieces[id]) {
        Relocate(id, target.0, target.1);
      } else {
        KillChessman(id);
      }
    }

    /** SpawnChessman: a new piece of the prefab's kind on (x, y), added to the active list. */
    method SpawnChessman(prefab: int, x: int, y: int, isWhite: bool, draw: StatDraw)
      requires Shape() && OnBoard(x, y) && Configured(cfg)
      modifies this, chessmans
      ensures Shape() && chessmans == old(chessmans) && enPassantMove == old(enPassantMove) && allowedMoves == old(allowedMoves)
      ensures State() == Spawn(old(State()), prefab, x, y, isWhite, cfg, draw)
    {
      var bounceData := CreateBounceData(cfg.vars, draw);
      var id := nextId;
      nextId := nextId + 1;
      SetSquare(x, y, Some(id));
      pieces := pieces[id := Chessman(PrefabKind(prefab), isWhite, x, y, bounceData)];
      active := active + {id};
    }

    /**
     * GetAdjacentFreeSpaces: the empty squares of the 3x3 block around
     * (cx, cy) that lie on the board, row by row from the lower row.
     */
    method GetAdjacentFreeSpaces(cx: int, cy: int) returns (r: seq<Tile>)
      requires Shape()
      ensures r == AdjacentFree(cells, cx, cy)
    {
      r := [];
      ghost var k: nat := 0;
      var y := cy - 1;
      while y <= cy + 1
        invariant cy - 1 <= y <= cy + 2
        invariant k == 3 * (y - (cy - 1))
        invariant r == FreeAmong(cells, cx, cy, k)
      {
        var x := cx - 1;
        while x <= cx + 1
          invariant cx - 1 <= x <= cx + 2
          invariant k == 3 * (y - (cy - 1)) + (x - (cx - 1))
          invariant r == FreeAmong(cells, cx, cy, k)
        {
          FreeAmongStep(cells, cx, cy, x, y, k);
          SquareFree(x, y);
          if 0 <= x && x < BoardSizeX && 0 <= y && y < BoardSizeY {
            if chessmans[x, y] == None {
              r := r + [(x, y)];
            }
          }
          x := x + 1;
          k := k + 1;
        }
        y := y + 1;
      }
    }

    // -------------------------------------------------------------------
    // CalculateVictory

    /**
     * CalculateVictory: resolve the fight, write the damage back into both
     * pieces, then play out the outcome. An exception from BounceToTile
     * ends it where it stands.
     */
    method CalculateVictory(a: PieceId, d: PieceId, first: Choice, second: Choice) returns (res: Result<FightResult, Fault>)
      requires Shape() && BoardSpec.Valid(State()) && a in pieces && d in pieces && a != d && Configured(cfg)
      modifies this, chessmans
      ensures Shape() && chessmans == old(chessmans) && enPassantMove == old(enPassantMove) && allowedMoves == old(allowedMoves)
      ensures (State(), res) == Victory(old(State()), a, d, cfg, first, second)
    {
      var fight := ResolveFight(cfg.vars, pieces[a].bounceData, pieces[d].bounceData);
      pieces := pieces[a := SetBounceData(pieces[a], fight.attacker)][d := SetBounceData(pieces[d], fight.defender)];
      assert State() == Damaged(old(State()), a, d, fight);
      match fight.result
      case Win => res := WinCase(a, d, first);
      case Lose => res := LoseCase(a, d, first);
      case Draw => res := DrawCase(a, d, first, second);
    }

    /** The Win branch of CalculateVictory: the defender bounces or dies, then a dead attacker is killed. */
    method WinCase(a: PieceId, d: PieceId, first: Choice) returns (res: Result<FightResult, Fault>)
      requires Shape() && BoardSpec.Valid(State()) && a in pieces && d in pieces
      modifies this, chessmans
      ensures Shape() && chessmans == old(chessmans) && enPassantMove == old(enPassantMove) && allowedMoves == old(allowedMoves)
      ensures (State(), res) == WinBranch(old(State()), a, d, cfg, first)
    {
      var defender := pieces[d];
      var freeSpaces := GetAdjacentFreeSpaces(defender.currentX, defender.currentY);
      if |freeSpaces| > 0 {
        var tile := BounceToTile(cfg.useLLM, first, freeSpaces);
        if tile.Failure? {
          return Failure(tile.error);
        }
        BounceChessman(d, tile.value);
      } else {
        KillChessman(d);
      }
      if !IsAlive(pieces[a]) {
        KillChessman(a);
        selected := None;
      }
      return Success(Win);
    }

    /** The Lose branch of CalculateVictory: the attacker bounces or dies, then a dead defender is killed. */
    method LoseCase(a: PieceId, d: PieceId, first: Choice) returns (res: Result<FightResult, Fault>)
      requires Shape() && BoardSpec.Valid(State()) && a in pieces && d in pieces
      modifies this, chessmans
      ensures Shape() && chessmans == old(chessmans) && enPassantMove == old(enPassantMove) && allowedMoves == old(allowedMoves)
      ensures (State(), res) == LoseBranch(old(State()), a, d, cfg, first)
    {
      var defender := pieces[d];
      var freeSpaces := GetAdjacentFreeSpaces(defender.currentX, defender.currentY);
      if |freeSpaces| > 0 {
        var tile := BounceToTile(cfg.useLLM, first, freeSpaces);
        if tile.Failure? {
          return Failure(tile.error);
        }
        BounceChessman(a, tile.value);
      } else {
        KillChessman(a);
        selected := None;
      }
      if !IsAlive(pieces[d]) {
        KillChessman(d);
      }
      return Success(Lose);
    }

    /**
     * The Draw branch of CalculateVictory: both pieces bounce, the attacker to a square picked
     * from the list without the defender's; with a dead defender only it
     * is killed; with no free square both are.
     */
    method DrawCase(a: PieceId, d: PieceId, first: Choice, second: Choice) returns (res: Result<FightResult, Fault>)
      requires Shape() && BoardSpec.Valid(State()) && a in pieces && d in pieces && a != d
      modifies this, chessmans
      ensures Shape() && chessmans == old(chessmans) && enPassantMove == old(enPassantMove) && allowedMoves == old(allowedMoves)
      ensures (State(), res) == DrawBranch(old(State()), a, d, cfg, first, second)
    {
      var defender := pieces[d];
      var freeSpaces := GetAdjacentFreeSpaces(defender.currentX, defender.currentY);
      if |freeSpaces| > 0 {
        if IsAlive(defender) {
          res := BounceBoth(a, d, freeSpaces, first, second);
          return;
        } else {
          KillChessman(d);
        }
      } else {
        KillChessman(a);
        KillChessman(d);
        selected := None;
      }
      return Success(Draw);
    }

    /** The Draw branch with a live defender: the defender bounces to the first pick, the attacker to a second among the rest. */
    method BounceBoth(a: PieceId, d: PieceId, freeSpaces: seq<Tile>, first: Choice, second: Choice)
      returns (res: Result<FightResult, Fault>)
      requires Shape() && BoardSpec.Valid(State()) && a in pieces && d in pieces && a != d
      requires forall t | t in freeSpaces :: OnBoard(t.0, t.1)
      modifies this, chessmans
      ensures Shape() && chessmans == old(chessmans) && enPassantMove == old(enPassantMove) && allowedMoves == old(allowedMoves)
      ensures (State(), res) == DrawBounces(old(State()), a, d, cfg, freeSpaces, first, second)
    {
      var defenderTile := BounceToTile(cfg.useLLM, first, freeSpaces);
      if defenderTile.Failure? {
        return Failure(defenderTile.error);
      }
      BounceChessman(d, defenderTile.value);
      res := BounceAttacker(a, RemoveFirst(freeSpaces, defenderTile.value), second);
    }

    /** The second half of the Draw branch: the attacker's pick and bounce. */
    method BounceAttacker(a: PieceId, freeSpaces: seq<Tile>, second: Choice) returns (res: Result<FightResult, Fault>)
      requires Shape() && BoardSpec.Valid(State()) && a in pieces
      requires forall t | t in freeSpaces :: OnBoard(t.0, t.1)
      modifies this, chessmans
      ensures Shape() && chessmans == old(chessmans) && enPassantMove == old(enPassantMove) && allowedMoves == old(allowedMoves)
      ensures (State(), res) == AttackerBounce(old(State()), a, cfg, freeSpaces, second)
    {
      var attackerTile := BounceToTile(cfg.useLLM, second, freeSpaces);
      if attackerTile.Failure? {
        return Failure(attackerTile.error);
      }
      var attackerAlive := IsAlive(pieces[a]);
      BounceChessman(a, attackerTile.value);
      if !attackerAlive {
        // The two bounces are awaited together: the attacker destroyed in
        // the meantime reads as null when the move goes on.
        selected := None;
      }
      return Success(Draw);
    }

    // -------------------------------------------------------------------
    // MoveChessman

    /**
     * MoveChessman on (x, y) for the live selection. A square the mask does
     * not allow only drops the selection; the enemy king ends the game; an
     * enemy piece is fought first; then the en passant capture, the pawn
     * rules, the move itself and the change of turn.
     */
    method MoveChessman(x: int, y: int, first: Choice, second: Choice, promotion: StatDraw, restart: seq<StatDraw>)
      returns (outcome: MoveOutcome)
      requires Valid() && OnBoard(x, y) && |restart| >= 32
      requires selected.Some? && selected.value in active
      modifies this, chessmans, enPassantMove
      ensures Valid() && enPassantMove == old(enPassantMove) && allowedMoves == old(allowedMoves)
      ensures (State(), outcome) ==
        BoardSpec.MoveChessman(old(State()), old(allowedMoves[x, y]), x, y, cfg, first, second, promotion, restart)
    {
      MoveKeepsSelectionValid(State(), allowedMoves[x, y], x, y, cfg, first, second, promotion, restart);
      if !allowedMoves[x, y] {
        selected := None;
        return Cancelled;
      }
      TileIn((x, y));
      var c := chessmans[x, y];
      if c.Some? && pieces[c.value].isWhite != isWhiteTurn && pieces[c.value].kind == King {
        EndGame(restart);
        return GameOver;
      }
      var fight := Capture(x, y, first, second);
      if fight.Failure? {
        return Faulted(fight.error);
      }
      outcome := AfterCapture(x, y, fight.value, promotion);
    }

    /** The capture test of MoveChessman: an enemy piece on (x, y) is fought; with none there the move counts as won. */
    method Capture(x: int, y: int, first: Choice, second: Choice) returns (res: Result<FightResult, Fault>)
      requires Valid() && OnBoard(x, y)
      requires selected.Some? && selected.value in active
      modifies this, chessmans
      ensures Shape() && chessmans == old(chessmans) && enPassantMove == old(enPassantMove) && allowedMoves == old(allowedMoves)
      ensures (State(), res) == Fought(old(State()), x, y, cfg, first, second)
    {
      TileIn((x, y));
      var c := chessmans[x, y];
      if c.Some? && pieces[c.value].isWhite != isWhiteTurn {
        res := CalculateVictory(selected.value, c.value, first, second);
      } else {
        res := Success(Win);
      }
    }

    /** The rest of MoveChessman after the fight: the en passant capture, the pawn rules, the move and the turn. */
    method AfterCapture(x: int, y: int, fightResult: FightResult, promotion: StatDraw) returns (outcome: MoveOutcome)
      requires Shape() && BoardSpec.Valid(State()) && OnBoard(x, y) && Configured(cfg)
      modifies this, chessmans, enPassantMove
      ensures Shape() && chessmans == old(chessmans) && enPassantMove == old(enPassantMove) && allowedMoves == old(allowedMoves)
      ensures (State(), outcome) == AfterFight(old(State()), x, y, fightResult, cfg, promotion)
    {
      var fault := CaptureEnPassant(x, y);
      if fault {
        return Faulted(NullReference);
      }
      ApplyPawnRules(x, y, promotion);
      CompleteMove(x, y, fightResult);
      return Moved(fightResult);
    }

    /**
     * The en passant step of MoveChessman: a move onto the en passant square kills the pawn it
     * passed -- KillChessman on an empty square raises the exception -- and
     * the square is reset.
     */
    method CaptureEnPassant(x: int, y: int) returns (fault: bool)
      requires Shape() && BoardSpec.Valid(State()) && OnBoard(x, y)
      modifies this, chessmans, enPassantMove
      ensures Shape() && chessmans == old(chessmans) && enPassantMove == old(enPassantMove) && allowedMoves == old(allowedMoves)
      ensures (x, y) == old(State()).enPassant ==> PassedSquare(old(State()), x, y) in old(cells)
      ensures fault <==> (x, y) == old(State()).enPassant && old(cells)[PassedSquare(old(State()), x, y)].None?
      ensures fault ==> State() == old(State())
      ensures !fault ==> (State() ==
        (if (x, y) == old(State()).enPassant then Kill(old(State()), old(cells)[PassedSquare(old(State()), x, y)].value)
         else old(State())).(enPassant := (-1, -1)))
    {
      TileIn(PassedSquare(State(), x, y));
      if x == enPassantMove[0] && y == enPassantMove[1] {
        var passedY := if isWhiteTurn then y - 1 else y + 1;
        var victim := chessmans[x, passedY];
        if victim.None? {
          return true;
        }
        KillChessman(victim.value);
      }
      enPassantMove[0] := -1;
      enPassantMove[1] := -1;
      return false;
    }

    /** The pawn rules of MoveChessman: a selected pawn is promoted on the last row, and a double step sets the en passant square. */
    method ApplyPawnRules(x: int, y: int, promotion: StatDraw)
      requires Shape() && BoardSpec.Valid(State()) && OnBoard(x, y) && Configured(cfg)
      modifies this, chessmans, enPassantMove
      ensures Shape() && chessmans == old(chessmans) && enPassantMove == old(enPassantMove) && allowedMoves == old(allowedMoves)
      ensures State() == PawnStage(old(State()), x, y, cfg, promotion)
    {
      if selected.Some? && pieces[selected.value].kind == Pawn {
        PromotePawn(x, y, promotion);
        enPassantMove[0] := x;
        if pieces[selected.value].currentY == 1 && y == 3 {
          enPassantMove[1] := y - 1;
        } else if pieces[selected.value].currentY == 6 && y == 4 {
          enPassantMove[1] := y + 1;
        }
      }
    }

    /** The promotion in MoveChessman: on row 7 a white queen, on row 0 a black one, replaces the pawn and becomes the selection. */
    method PromotePawn(x: int, y: int, promotion: StatDraw)
      requires Shape() && BoardSpec.Valid(State()) && OnBoard(x, y) && Configured(cfg)
      requires selected.Some? && selected.value in pieces
      modifies this, chessmans
      ensures Shape() && chessmans == old(chessmans) && enPassantMove == old(enPassantMove) && allowedMoves == old(allowedMoves)
      ensures State() == Promote(old(State()), old(selected.value), x, y, cfg, promotion)
      ensures BoardSpec.Valid(State()) && selected.Some? && selected.value in pieces
    {
      if y == 7 {
        KillChessman(selected.value);
        SpawnChessman(1, x, y, true, promotion);
        selected := chessmans[x, y];
      } else if y == 0 {
        KillChessman(selected.value);
        SpawnChessman(7, x, y, false, promotion);
        selected := chessmans[x, y];
      }
    }

    /** The end of MoveChessman: a winning selection takes (x, y), the turn passes and the selection is dropped. */
    method CompleteMove(x: int, y: int, fightResult: FightResult)
      requires Shape() && BoardSpec.Valid(State()) && OnBoard(x, y)
      modifies this, chessmans
      ensures Shape() && chessmans == old(chessmans) && enPassantMove == old(enPassantMove) && allowedMoves == old(allowedMoves)
      ensures State() == Finish(old(State()), x, y, fightResult)
    {
      if selected.Some? && fightResult == Win {
        Relocate(selected.value, x, y);
      }
      isWhiteTurn := !isWhiteTurn;
      selected := None;
    }

    // -------------------------------------------------------------------
    // SpawnAllChessmans and EndGame

    /** SpawnAllChessmans: a new active list and an empty grid, then the 32 pieces of the opening position. */
    method SpawnAllChessmans(draws: seq<StatDraw>)
      requires enPassantMove.Length == 2 && allowedMoves.Length0 == BoardSizeX && allowedMoves.Length1 == BoardSizeY
      requires Configured(cfg) && |draws| >= 32
      modifies this
      ensures Shape() && fresh(chessmans) && enPassantMove == old(enPassantMove) && allowedMoves == old(allowedMoves)
      ensures State() == SpawnAll(old(State()), cfg, draws)
    {
      active := {};
      var board := new Option<PieceId>[BoardSizeX, BoardSizeY]((i, j) => None);
      chessmans := board;
      cells := EmptyGrid;
      forall t: Tile
        ensures t in cells <==> OnBoard(t.0, t.1)
      {
        TileIn(t);
      }
      ghost var v0 := State();
      assert v0 == Cleared(old(State()));
      SpawnArmies(draws, v0);
    }

    /** The 32 SpawnChessman calls of SpawnAllChessmans, white before black, pieces before pawns. */
    method SpawnArmies(draws: seq<StatDraw>, ghost v0: View)
      requires Shape() && Configured(cfg) && |draws| >= 32 && State() == Spawns(v0, cfg, draws, 0)
      modifies this, chessmans
      ensures Shape() && chessmans == old(chessmans) && enPassantMove == old(enPassantMove) && allowedMoves == old(allowedMoves)
      ensures State() == Spawns(v0, cfg, draws, 32)
    {
      var k := 0;
      SpawnWhitePieces(k, draws, v0);
      k := k + 8;
      SpawnPawns(k, 5, 1, true, draws, v0);
      k := k + 8;
      SpawnBlackPieces(k, draws, v0);
      k := k + 8;
      SpawnPawns(k, 11, 6, false, draws, v0);
    }

    /** SpawnAllChessmans, white section: the king, queen, rooks, bishops and knights on row 0. */
    method SpawnWhitePieces(k0: nat, draws: seq<StatDraw>, ghost v0: View)
      requires k0 == 0
      requires Shape() && Configured(cfg) && |draws| >= 32 && State() == Spawns(v0, cfg, draws, k0)
      modifies this, chessmans
      ensures Shape() && chessmans == old(chessmans) && enPassantMove == old(enPassantMove) && allowedMoves == old(allowedMoves)
      ensures State() == Spawns(v0, cfg, draws, k0 + 8)
    {
      BackRankCalls(k0);
      var k := k0;
      SpawnNth(k, 0, 3, 0, true, draws, v0);
      k := k + 1;
      SpawnNth(k, 1, 4, 0, true, draws, v0);
      k := k + 1;
      SpawnNth(k, 2, 0, 0, true, draws, v0);
      k := k + 1;
      SpawnNth(k, 2, 7, 0, true, draws, v0);
      k := k + 1;
      SpawnNth(k, 3, 2, 0, true, draws, v0);
      k := k + 1;
      SpawnNth(k, 3, 5, 0, true, draws, v0);
      k := k + 1;
      SpawnNth(k, 4, 1, 0, true, draws, v0);
      k := k + 1;
      SpawnNth(k, 4, 6, 0, true, draws, v0);
      k := k + 1;
    }

    /** SpawnAllChessmans, black section: the king, queen, rooks, bishops and knights on row 7. */
    method SpawnBlackPieces(k0: nat, draws: seq<StatDraw>, ghost v0: View)
      requires k0 == 16
      requires Shape() && Configured(cfg) && |draws| >= 32 && State() == Spawns(v0, cfg, draws, k0)
      modifies this, chessmans
      ensures Shape() && chessmans == old(chessmans) && enPassantMove == old(enPassantMove) && allowedMoves == old(allowedMoves)
      ensures State() == Spawns(v0, cfg, draws, k0 + 8)
    {
      BackRankCalls(k0);
      var k := k0;
      SpawnNth(k, 6, 4, 7, false, draws, v0);
      k := k + 1;
      SpawnNth(k, 7, 3, 7, false, draws, v0);
      k := k + 1;
      SpawnNth(k, 8, 0, 7, false, draws, v0);
      k := k + 1;
      SpawnNth(k, 8, 7, 7, false, draws, v0);
      k := k + 1;
      SpawnNth(k, 9, 2, 7, false, draws, v0);
      k := k + 1;
      SpawnNth(k, 9, 5, 7, false, draws, v0);
      k := k + 1;
      SpawnNth(k, 10, 1, 7, false, draws, v0);
      k := k + 1;
      SpawnNth(k, 10, 6, 7, false, draws, v0);
      k := k + 1;
    }

    /** The pawn loops of SpawnAllChessmans: a row of eight pawns, one per file. */
    method SpawnPawns(k0: nat, prefab: int, row: int, isWhite: bool, draws: seq<StatDraw>, ghost v0: View)
      requires (k0, prefab, row, isWhite) == (8, 5, 1, true) || (k0, prefab, row, isWhite) == (24, 11, 6, false)
      requires Shape() && Configured(cfg) && |draws| >= 32 && State() == Spawns(v0, cfg, draws, k0)
      modifies this, chessmans
      ensures Shape() && chessmans == old(chessmans) && enPassantMove == old(enPassantMove) && allowedMoves == old(allowedMoves)
      ensures State() == Spawns(v0, cfg, draws, k0 + 8)
    {
      for i := 0 to 8
        invariant Shape() && chessmans == old(chessmans) && State() == Spawns(v0, cfg, draws, k0 + i)
        invariant enPassantMove == old(enPassantMove) && allowedMoves == old(allowedMoves)
      {
        SpawnNth(k0 + i, prefab, i, row, isWhite, draws, v0);
      }
    }

    /** The k-th SpawnChessman call of SpawnAllChessmans, with the k-th draw of statistics. */
    method SpawnNth(k: nat, prefab: int, x: int, y: int, isWhite: bool, draws: seq<StatDraw>, ghost v0: View)
      requires Shape() && Configured(cfg) && k < 32 && |draws| >= 32
      requires SpawnCall(k) == (prefab, (x, y), isWhite) && State() == Spawns(v0, cfg, draws, k)
      modifies this, chessmans
      ensures Shape() && chessmans == old(chessmans) && enPassantMove == old(enPassantMove) && allowedMoves == old(allowedMoves)
      ensures State() == Spawns(v0, cfg, draws, k + 1)
    {
      SpawnChessman(prefab, x, y, isWhite, draws[k]);
    }

    /**
     * EndGame: the pieces on the board are destroyed (they drop out with
     * the old active list), white is to move, and the board is set up again.
     */
    method EndGame(restart: seq<StatDraw>)
      requires Valid() && |restart| >= 32
      modifies this
      ensures Valid() && fresh(chessmans) && enPassantMove == old(enPassantMove) && allowedMoves == old(allowedMoves)
      ensures State() == BoardSpec.EndGame(old(State()), cfg, restart)
    {
      ghost var v := State();
      isWhiteTurn := true;
      SpawnAllChessmans(restart);
      BoardFacts.EndGameRestarts(v, cfg, restart);
    }

    /** A square is free in the mirror exactly when it is on the board and null in Chessmans. */
    lemma SquareFree(x: int, y: int)
      requires Shape()
      ensures IsFree(cells, (x, y)) <==> OnBoard(x, y) && chessmans[x, y].None?
    {
    }

    /** The inner loops of SelectChessman: whether the mask allows any square, stopping at the first. */
    method AnyAllowed(moves: array2<bool>) returns (found: bool)
      requires moves.Length0 == BoardSizeX && moves.Length1 == BoardSizeY
      ensures found <==> HasMove(moves)
    {
      found := false;
      var i := 0;
      while i < 8
        invariant 0 <= i <= 9
        invariant found ==> i == 9 && HasMove(moves)
        invariant !found ==> i <= 8 && forall a, b | 0 <= a < i && 0 <= b < 8 :: !moves[a, b]
      {
        var j := 0;
        while j < 8
          invariant 0 <= j <= 8 && i < 8 && !found
          invariant forall b | 0 <= b < j :: !moves[i, b]
        {
          if moves[i, j] {
            found := true;
            i := 8;
            break;
          }
          j := j + 1;
        }
        i := i + 1;
      }
    }

    /**
     * SelectChessman, given the piece's move mask: a piece of the side to
     * move gets a fresh copy of its mask stored, as PossibleMoves returns a
     * new array, and becomes the selection when the mask allows some square.
     */
    method SelectChessman(x: int, y: int, moves: array2<bool>)
      requires Valid() && OnBoard(x, y)
      requires moves.Length0 == BoardSizeX && moves.Length1 == BoardSizeY
      modifies this
      ensures Valid() && chessmans == old(chessmans) && enPassantMove == old(enPassantMove)
      ensures State() == Select(old(State()), x, y, HasMove(moves))
      ensures if cells[(x, y)].Some? && pieces[cells[(x, y)].value].isWhite == isWhiteTurn
              then fresh(allowedMoves) && forall i, j | 0 <= i < BoardSizeX && 0 <= j < BoardSizeY :: allowedMoves[i, j] == moves[i, j]
              else allowedMoves == old(allowedMoves)
    {
      TileIn((x, y));
      SelectKeepsSelectionValid(State(), x, y, HasMove(moves));
      var c := chessmans[x, y];
      if c == None {
        return;
      }
      if pieces[c.value].isWhite != isWhiteTurn {
        return;
      }
      allowedMoves := new bool[BoardSizeX, BoardSizeY]((i, j) reads moves =>
        if 0 <= i < BoardSizeX && 0 <= j < BoardSizeY then moves[i, j] else false);
      var hasAtLeastOneMove := AnyAllowed(moves);
      if !hasAtLeastOneMove {
        return;
      }
      selected := c;
    }

    /**
     * Update, for one click on square (x, y) (-1 when the cursor is off
     * the board): with no live selection the click selects, otherwise it
     * moves the selected piece. `moves` is the mask the piece on (x, y)
     * would report, and the remaining parameters are the move's draws.
     */
    method Update(x: int, y: int, moves: array2<bool>, first: Choice, second: Choice, promotion: StatDraw, restart: seq<StatDraw>)
      returns (outcome: Option<MoveOutcome>)
      requires Valid() && -1 <= x < BoardSizeX && -1 <= y < BoardSizeY && |restart| >= 32
      requires moves.Length0 == BoardSizeX && moves.Length1 == BoardSizeY
      modifies this, chessmans, enPassantMove
      ensures Valid() && enPassantMove == old(enPassantMove)
      ensures x < 0 || y < 0 ==> outcome == None && State() == old(State()) && allowedMoves == old(allowedMoves)
      ensures x >= 0 && y >= 0 && (old(selected).None? || old(selected).value !in old(active)) ==>
        outcome == None && State() == Select(old(State()), x, y, HasMove(moves))
      ensures x >= 0 && y >= 0 && old(selected).Some? && old(selected).value in old(active) ==>
        outcome.Some? &&
        (State(), outcome.value) == BoardSpec.MoveChessman(old(State()), old(allowedMoves[x, y]), x, y, cfg, first, second, promotion, restart)
    {
      outcome := None;
      if x >= 0 && y >= 0 {
        if selected.None? || selected.value !in active {
          SelectChessman(x, y, moves);
        } else {
          var o := MoveChessman(x, y, first, second, promotion, restart);
          outcome := Some(o);
        }
      }
    }
  }

  /** The eight back-row calls of each side, as the call table lists them. */
  lemma BackRankCalls(k0: nat)
    requires k0 == 0 || k0 == 16
    ensures k0 == 0 ==> SpawnCall(k0) == (0, (3, 0), true) && SpawnCall(k0 + 1) == (1, (4, 0), true)
    ensures k0 == 0 ==> SpawnCall(k0 + 2) == (2, (0, 0), true) && SpawnCall(k0 + 3) == (2, (7, 0), true)
    ensures k0 == 0 ==> SpawnCall(k0 + 4) == (3, (2, 0), true) && SpawnCall(k0 + 5) == (3, (5, 0), true)
    ensures k0 == 0 ==> SpawnCall(k0 + 6) == (4, (1, 0), true) && SpawnCall(k0 + 7) == (4, (6, 0), true)
    ensures k0 == 16 ==> SpawnCall(k0) == (6, (4, 7), false) && SpawnCall(k0 + 1) == (7, (3, 7), false)
    ensures k0 == 16 ==> SpawnCall(k0 + 2) == (8, (0, 7), false) && SpawnCall(k0 + 3) == (8, (7, 7), false)
    ensures k0 == 16 ==> SpawnCall(k0 + 4) == (9, (2, 7), false) && SpawnCall(k0 + 5) == (9, (5, 7), false)
    ensures k0 == 16 ==> SpawnCall(k0 + 6) == (10, (1, 7), false) && SpawnCall(k0 + 7) == (10, (6, 7), false)
  {
  }

  /** A move mask allows some square. */
  ghost predicate HasMove(moves: array2<bool>)
    reads moves
    requires moves.Length0 == BoardSizeX && moves.Length1 == BoardSizeY
  {
    exists i, j | 0 <= i < BoardSizeX && 0 <= j < BoardSizeY :: moves[i, j]
  }

  /**
   * The loop counters of GetAdjacentFreeSpaces, column step i and row step
   * j, visit the (3j + i)-th candidate, so one more iteration extends the list
   * the way FreeAmong does.
   */
  lemma FreeAmongStep(cells: Grid, cx: int, cy: int, x: int, y: int, k: nat)
    requires cx - 1 <= x <= cx + 1 && cy - 1 <= y && k == 3 * (y - (cy - 1)) + (x - (cx - 1))
    ensures FreeAmong(cells, cx, cy, k + 1) == FreeAmong(cells, cx, cy, k) + (if IsFree(cells, (x, y)) then [(x, y)] else [])
  {
    assert k % 3 == x - (cx - 1) && k / 3 == y - (cy - 1);
    assert Candidate(cx, cy, k) == (x, y);
  }
}
