/**
 * What a click does to the game: selecting a piece, and the outcomes of
 * MoveChessman -- cancelled, game over, a move that passes the turn, or an
 * exception that stops the move where it stood -- with the special moves
 * (double step, promotion, en passant) spelled out.
 */
module MoveFacts {
  import opened Wrappers
  import opened Pieces
  import opened Bounce
  import opened BoardSpec
  import opened BoardFacts

  // ---------------------------------------------------------------------
  // SelectChessman

  /**
   * Selecting changes nothing but the selection, and the selection changes
   * exactly when the square holds a piece of the side to move that has at
   * least one move; it then becomes that piece.
   */
  lemma {:induction false} SelectOutcome(v: View, x: int, y: int, hasMove: bool)
    requires Valid(v) && OnBoard(x, y)
    ensures Select(v, x, y, hasMove).(selected := v.selected) == v
    ensures (x, y) in v.cells
    ensures (v.cells[(x, y)].Some? && v.pieces[v.cells[(x, y)].value].isWhite == v.isWhiteTurn && hasMove)
            ==> Select(v, x, y, hasMove).selected == v.cells[(x, y)]
    ensures !(v.cells[(x, y)].Some? && v.pieces[v.cells[(x, y)].value].isWhite == v.isWhiteTurn && hasMove)
            ==> Select(v, x, y, hasMove) == v
  {
    TileIn((x, y));
  }

  /** A selection made by SelectChessman belongs to the side to move. */
  lemma {:induction false} SelectKeepsSelectionValid(v: View, x: int, y: int, hasMove: bool)
    requires Valid(v) && SelectionValid(v) && OnBoard(x, y)
    ensures Valid(Select(v, x, y, hasMove)) && SelectionValid(Select(v, x, y, hasMove))
  {
    TileIn((x, y));
  }

  // ---------------------------------------------------------------------
  // MoveChessman: the four outcomes

  /**
   * A square outside the move mask only drops the selection; an allowed
   * square holding the enemy king ends the game; every other allowed square
   * either passes the turn with the selection dropped, or stops on an
   * exception with the turn, the en passant square and the piece count as
   * they were, and -- unless the exception is the en passant one -- the
   * selection kept.
   */
  lemma {:induction false} MoveOutcomes(v: View, allowed: bool, x: int, y: int, cfg: Config, first: Choice, second: Choice,
                                        promotion: StatDraw, restart: seq<StatDraw>)
    requires Valid(v) && SelectionValid(v) && OnBoard(x, y) && Configured(cfg) && |restart| >= 32
    requires v.selected.Some? && v.selected.value in v.active
    ensures MoveChessman(v, allowed, x, y, cfg, first, second, promotion, restart).1 == Cancelled <==> !allowed
    ensures !allowed ==> MoveChessman(v, allowed, x, y, cfg, first, second, promotion, restart).0 == v.(selected := None)
    ensures MoveChessman(v, allowed, x, y, cfg, first, second, promotion, restart).1 == GameOver
            <==> allowed && KingCapture(v, x, y)
    ensures MoveChessman(v, allowed, x, y, cfg, first, second, promotion, restart).1.Moved? ==>
      && MoveChessman(v, allowed, x, y, cfg, first, second, promotion, restart).0.isWhiteTurn == !v.isWhiteTurn
      && MoveChessman(v, allowed, x, y, cfg, first, second, promotion, restart).0.selected.None?
    ensures MoveChessman(v, allowed, x, y, cfg, first, second, promotion, restart).1.Moved? &&
            v.pieces[v.selected.value].kind != Pawn ==>
      MoveChessman(v, allowed, x, y, cfg, first, second, promotion, restart).0.enPassant == (-1, -1)
    ensures MoveChessman(v, allowed, x, y, cfg, first, second, promotion, restart).1.Moved? ==>
      var row := MoveChessman(v, allowed, x, y, cfg, first, second, promotion, restart).0.enPassant.1;
      row == -1 || row == 2 || row == 5
    ensures MoveChessman(v, allowed, x, y, cfg, first, second, promotion, restart).1.Faulted? ==>
      && MoveChessman(v, allowed, x, y, cfg, first, second, promotion, restart).0.isWhiteTurn == v.isWhiteTurn
      && MoveChessman(v, allowed, x, y, cfg, first, second, promotion, restart).0.enPassant == v.enPassant
      && MoveChessman(v, allowed, x, y, cfg, first, second, promotion, restart).0.nextId == v.nextId
    ensures MoveChessman(v, allowed, x, y, cfg, first, second, promotion, restart).1.Faulted? &&
            MoveChessman(v, allowed, x, y, cfg, first, second, promotion, restart).1.fault != NullReference ==>
      MoveChessman(v, allowed, x, y, cfg, first, second, promotion, restart).0.selected == v.selected
  {
    TileIn((x, y));
    if allowed && !KingCapture(v, x, y) {
      var fought := Fought(v, x, y, cfg, first, second);
      if fought.1.Success? {
        assert MoveChessman(v, allowed, x, y, cfg, first, second, promotion, restart) ==
          AfterFight(fought.0, x, y, fought.1.value, cfg, promotion);
      } else {
        assert MoveChessman(v, allowed, x, y, cfg, first, second, promotion, restart) ==
          (fought.0, Faulted(fought.1.error));
      }
    }
  }

  /**
   * No move leaves a live piece of the waiting side selected: a move drops
   * the selection, an exception keeps it and the turn, and a new game
   * leaves only a destroyed piece selected.
   */
  lemma {:induction false} MoveKeepsSelectionValid(v: View, allowed: bool, x: int, y: int, cfg: Config, first: Choice, second: Choice,
                                                   promotion: StatDraw, restart: seq<StatDraw>)
    requires Valid(v) && SelectionValid(v) && OnBoard(x, y) && Configured(cfg) && |restart| >= 32
    requires v.selected.Some? && v.selected.value in v.active
    ensures SelectionValid(MoveChessman(v, allowed, x, y, cfg, first, second, promotion, restart).0)
  {
    var r := MoveChessman(v, allowed, x, y, cfg, first, second, promotion, restart);
    if allowed && KingCapture(v, x, y) {
      EndGameRestarts(v, cfg, restart);
      assert r.0 == EndGame(v, cfg, restart);
    } else if allowed {
      var fought := Fought(v, x, y, cfg, first, second);
      if Captures(v, x, y) {
        TileIn((x, y));
        VictoryDamage(v, v.selected.value, v.cells[(x, y)].value, cfg, first, second);
      }
      if fought.1.Success? {
        assert r == AfterFight(fought.0, x, y, fought.1.value, cfg, promotion);
        AfterFightFault(fought.0, x, y, fought.1.value, cfg, promotion);
      } else {
        assert r == (fought.0, Faulted(fought.1.error));
      }
    }
  }

  /** When the stages after the fight raise the exception, they have changed nothing. */
  lemma {:induction false} AfterFightFault(v: View, x: int, y: int, fr: FightResult, cfg: Config, promotion: StatDraw)
    requires Valid(v) && OnBoard(x, y) && Configured(cfg)
    ensures AfterFight(v, x, y, fr, cfg, promotion).1.Faulted? ==> AfterFight(v, x, y, fr, cfg, promotion) == (v, Faulted(NullReference))
  {
  }

  /** Capturing the enemy king starts a new game: white to move, on the board SpawnAllChessmans sets up. */
  lemma {:induction false} KingCaptureRestarts(v: View, x: int, y: int, cfg: Config, first: Choice, second: Choice,
                                               promotion: StatDraw, restart: seq<StatDraw>)
    requires Valid(v) && SelectionValid(v) && OnBoard(x, y) && Configured(cfg) && |restart| >= 32
    requires v.selected.Some? && v.selected.value in v.active
    requires KingCapture(v, x, y)
    ensures MoveChessman(v, true, x, y, cfg, first, second, promotion, restart)
            == (SpawnAll(v.(isWhiteTurn := true), cfg, restart), GameOver)
    ensures MoveChessman(v, true, x, y, cfg, first, second, promotion, restart).0.isWhiteTurn
  {
    EndGameRestarts(v, cfg, restart);
  }

  // ---------------------------------------------------------------------
  // The stages after the fight

  /** The winner's step: it leaves its square for (x, y); no other square and no other piece changes. */
  lemma {:induction false} FinishMoves(v: View, x: int, y: int)
    requires Valid(v) && OnBoard(x, y) && v.selected.Some?
    ensures Finish(v, x, y, Win).cells == v.cells[Pos(v.pieces[v.selected.value]) := None][(x, y) := v.selected]
    ensures Finish(v, x, y, Win).pieces == v.pieces[v.selected.value := SetPosition(v.pieces[v.selected.value], x, y)]
  {
  }

  /** A winner that already stands on (x, y) -- a queen just promoted there -- stays, and nothing moves. */
  lemma {:induction false} FinishInPlace(v: View, x: int, y: int)
    requires Valid(v) && OnBoard(x, y) && v.selected.Some? && (x, y) in v.cells && v.cells[(x, y)] == v.selected
    ensures Finish(v, x, y, Win).cells == v.cells
    ensures Finish(v, x, y, Win).pieces == v.pieces
  {
    var s := v.selected.value;
    assert Pos(v.pieces[s]) == (x, y);
    assert SetPosition(v.pieces[s], x, y) == v.pieces[s];
    assert v.cells[(x, y) := None][(x, y) := Some(s)] == v.cells;
    assert v.pieces[s := v.pieces[s]] == v.pieces;
  }

  /**
   * A pawn's move short of the last row: the en passant square becomes
   * (x, row) where row is the square a double step from the starting row
   * passed over, and stays -1 otherwise; nothing else changes.
   */
  lemma {:induction false} PawnStageStep(v: View, x: int, y: int, cfg: Config, promotion: StatDraw)
    requires Valid(v) && OnBoard(x, y) && Configured(cfg) && v.enPassant.1 == -1
    requires v.selected.Some? && v.pieces[v.selected.value].kind == Pawn && y != 0 && y != 7
    ensures PawnStage(v, x, y, cfg, promotion) ==
      v.(enPassant := (x, if v.pieces[v.selected.value].currentY == 1 && y == 3 then 2
                         else if v.pieces[v.selected.value].currentY == 6 && y == 4 then 5
                         else -1))
  {
    assert Promote(v, v.selected.value, x, y, cfg, promotion) == v;
  }

  /**
   * A pawn reaching row 7 or row 0: it leaves play and a new queen of that
   * row's colour, with fresh statistics, takes the square and the
   * selection; the en passant square becomes (x, -1).
   */
  lemma {:induction false} PawnStagePromotes(v: View, x: int, y: int, cfg: Config, promotion: StatDraw)
    requires Valid(v) && OnBoard(x, y) && Configured(cfg) && v.enPassant.1 == -1
    requires v.selected.Some? && v.pieces[v.selected.value].kind == Pawn && (y == 0 || y == 7)
    ensures PawnStage(v, x, y, cfg, promotion).selected == Some(v.nextId)
    ensures PawnStage(v, x, y, cfg, promotion).pieces ==
      v.pieces[v.nextId := Chessman(Queen, y == 7, x, y, CreateBounceData(cfg.vars, promotion))]
    ensures PawnStage(v, x, y, cfg, promotion).cells == v.cells[Pos(v.pieces[v.selected.value]) := None][(x, y) := Some(v.nextId)]
    ensures PawnStage(v, x, y, cfg, promotion).active == v.active - {v.selected.value} + {v.nextId}
    ensures PawnStage(v, x, y, cfg, promotion).enPassant == (x, -1)
    ensures PawnStage(v, x, y, cfg, promotion).nextId == v.nextId + 1
  {
    var s := v.selected.value;
    var k := Kill(v, s);
    var p := Promote(v, s, x, y, cfg, promotion);
    if y == 7 {
      assert p == Spawn(k, 1, x, y, true, cfg, promotion).(selected := Some(k.nextId));
    } else {
      assert p == Spawn(k, 7, x, y, false, cfg, promotion).(selected := Some(k.nextId));
    }
    assert PawnStage(v, x, y, cfg, promotion) == PawnRules(v, x, y, cfg, promotion);
    assert p.pieces[p.selected.value].currentY == y;
  }

  // ---------------------------------------------------------------------
  // Moves to an empty square: no fight

  /** Without an enemy piece on the square there is no fight: the move goes straight to the stages after it, as a win. */
  lemma {:induction false} NoFight(v: View, x: int, y: int, cfg: Config, first: Choice, second: Choice,
                                   promotion: StatDraw, restart: seq<StatDraw>)
    requires Valid(v) && SelectionValid(v) && OnBoard(x, y) && Configured(cfg) && |restart| >= 32
    requires v.selected.Some? && v.selected.value in v.active
    requires !Captures(v, x, y)
    ensures MoveChessman(v, true, x, y, cfg, first, second, promotion, restart) == AfterFight(v, x, y, Win, cfg, promotion)
  {
  }

  /**
   * A piece other than a pawn moving to an empty square that is not the en
   * passant square: it leaves its square for the target, the en passant
   * square is cleared, the turn passes and the selection is dropped;
   * nothing else changes.
   */
  lemma {:induction false} QuietMove(v: View, x: int, y: int, cfg: Config, first: Choice, second: Choice,
                                     promotion: StatDraw, restart: seq<StatDraw>)
    requires Valid(v) && SelectionValid(v) && OnBoard(x, y) && Configured(cfg) && |restart| >= 32
    requires v.selected.Some? && v.selected.value in v.active
    requires (x, y) in v.cells && v.cells[(x, y)].None? && (x, y) != v.enPassant
    requires v.pieces[v.selected.value].kind != Pawn
    ensures MoveChessman(v, true, x, y, cfg, first, second, promotion, restart) ==
      (v.(cells := v.cells[Pos(v.pieces[v.selected.value]) := None][(x, y) := v.selected],
          pieces := v.pieces[v.selected.value := SetPosition(v.pieces[v.selected.value], x, y)],
          enPassant := (-1, -1),
          isWhiteTurn := !v.isWhiteTurn,
          selected := None),
       Moved(Win))
  {
    NoFight(v, x, y, cfg, first, second, promotion, restart);
    var v2 := v.(enPassant := (-1, -1));
    assert AfterFight(v, x, y, Win, cfg, promotion) == (Finish(v2, x, y, Win), Moved(Win));
    FinishMoves(v2, x, y);
  }

  /**
   * A pawn moving to an empty square short of the last row: it moves, and
   * the en passant square becomes (x, row) where row is the square it
   * passed over on a double step from its starting row, and -1 otherwise.
   */
  lemma {:induction false} PawnStep(v: View, x: int, y: int, cfg: Config, first: Choice, second: Choice,
                                    promotion: StatDraw, restart: seq<StatDraw>)
    requires Valid(v) && SelectionValid(v) && OnBoard(x, y) && Configured(cfg) && |restart| >= 32
    requires v.selected.Some? && v.selected.value in v.active
    requires (x, y) in v.cells && v.cells[(x, y)].None? && (x, y) != v.enPassant
    requires v.pieces[v.selected.value].kind == Pawn && y != 0 && y != 7
    ensures MoveChessman(v, true, x, y, cfg, first, second, promotion, restart).1 == Moved(Win)
    ensures MoveChessman(v, true, x, y, cfg, first, second, promotion, restart).0.cells ==
      v.cells[Pos(v.pieces[v.selected.value]) := None][(x, y) := v.selected]
    ensures MoveChessman(v, true, x, y, cfg, first, second, promotion, restart).0.enPassant ==
      (x, if v.pieces[v.selected.value].currentY == 1 && y == 3 then 2
          else if v.pieces[v.selected.value].currentY == 6 && y == 4 then 5
          else -1)
  {
    NoFight(v, x, y, cfg, first, second, promotion, restart);
    var v2 := v.(enPassant := (-1, -1));
    PawnStageStep(v2, x, y, cfg, promotion);
    var v3 := PawnStage(v2, x, y, cfg, promotion);
    assert AfterFight(v, x, y, Win, cfg, promotion) == (Finish(v3, x, y, Win), Moved(Win));
    FinishMoves(v3, x, y);
  }

  /**
   * A pawn reaching the last row (row 7 for the white queen, row 0 for the
   * black one, whoever moves) on an empty square: the pawn leaves play, a
   * new queen of that row's colour stands on the square, and the en passant
   * square is (x, -1).
   */
  lemma {:induction false} PawnPromotes(v: View, x: int, y: int, cfg: Config, first: Choice, second: Choice,
                                        promotion: StatDraw, restart: seq<StatDraw>)
    requires Valid(v) && SelectionValid(v) && OnBoard(x, y) && Configured(cfg) && |restart| >= 32
    requires v.selected.Some? && v.selected.value in v.active
    requires (x, y) in v.cells && v.cells[(x, y)].None? && (x, y) != v.enPassant
    requires v.pieces[v.selected.value].kind == Pawn && (y == 0 || y == 7)
    ensures MoveChessman(v, true, x, y, cfg, first, second, promotion, restart).1 == Moved(Win)
    ensures MoveChessman(v, true, x, y, cfg, first, second, promotion, restart).0.active == v.active - {v.selected.value} + {v.nextId}
    ensures MoveChessman(v, true, x, y, cfg, first, second, promotion, restart).0.cells ==
      v.cells[Pos(v.pieces[v.selected.value]) := None][(x, y) := Some(v.nextId)]
    ensures MoveChessman(v, true, x, y, cfg, first, second, promotion, restart).0.pieces ==
      v.pieces[v.nextId := Chessman(Queen, y == 7, x, y, CreateBounceData(cfg.vars, promotion))]
    ensures MoveChessman(v, true, x, y, cfg, first, second, promotion, restart).0.enPassant == (x, -1)
  {
    NoFight(v, x, y, cfg, first, second, promotion, restart);
    var v2 := v.(enPassant := (-1, -1));
    PawnStagePromotes(v2, x, y, cfg, promotion);
    var v3 := PawnStage(v2, x, y, cfg, promotion);
    assert AfterFight(v, x, y, Win, cfg, promotion) == (Finish(v3, x, y, Win), Moved(Win));
    FinishInPlace(v3, x, y);
  }

  // ---------------------------------------------------------------------
  // En passant

  /**
   * Moving to the en passant square with a piece behind it (seen from the
   * mover), whatever the mover is: that piece leaves play and its square is
   * emptied, and the mover lands on the target.
   */
  lemma {:induction false} EnPassantCapture(v: View, x: int, y: int, cfg: Config, first: Choice, second: Choice,
                                            promotion: StatDraw, restart: seq<StatDraw>)
    requires Valid(v) && SelectionValid(v) && OnBoard(x, y) && Configured(cfg) && |restart| >= 32
    requires v.selected.Some? && v.selected.value in v.active
    requires (x, y) in v.cells && v.cells[(x, y)].None? && (x, y) == v.enPassant
    requires PassedSquare(v, x, y) in v.cells && v.cells[PassedSquare(v, x, y)].Some?
    requires Pos(v.pieces[v.selected.value]) != PassedSquare(v, x, y)
    ensures MoveChessman(v, true, x, y, cfg, first, second, promotion, restart).1 == Moved(Win)
    ensures MoveChessman(v, true, x, y, cfg, first, second, promotion, restart).0.active == v.active - {v.cells[PassedSquare(v, x, y)].value}
    ensures MoveChessman(v, true, x, y, cfg, first, second, promotion, restart).0.cells ==
      v.cells[PassedSquare(v, x, y) := None][Pos(v.pieces[v.selected.value]) := None][(x, y) := v.selected]
  {
    NoFight(v, x, y, cfg, first, second, promotion, restart);
    var s := v.selected.value;
    var p := v.cells[PassedSquare(v, x, y)].value;
    var v1 := Kill(v, p);
    var v2 := v1.(enPassant := (-1, -1));
    var v3 := PawnStage(v2, x, y, cfg, promotion);
    assert AfterFight(v, x, y, Win, cfg, promotion) == (Finish(v3, x, y, Win), Moved(Win));
    if v2.pieces[s].kind == Pawn {
      PawnStageStep(v2, x, y, cfg, promotion);
    }
    FinishMoves(v3, x, y);
  }

  /** Moving to the en passant square with nothing behind it raises the exception and changes nothing. */
  lemma {:induction false} EnPassantWithoutVictim(v: View, x: int, y: int, cfg: Config, first: Choice, second: Choice,
                                                  promotion: StatDraw, restart: seq<StatDraw>)
    requires Valid(v) && SelectionValid(v) && OnBoard(x, y) && Configured(cfg) && |restart| >= 32
    requires v.selected.Some? && v.selected.value in v.active
    requires (x, y) in v.cells && v.cells[(x, y)].None? && (x, y) == v.enPassant
    requires PassedSquare(v, x, y) in v.cells && v.cells[PassedSquare(v, x, y)].None?
    ensures MoveChessman(v, true, x, y, cfg, first, second, promotion, restart) == (v, Faulted(NullReference))
  {
    assert !Captures(v, x, y);
  }
}
