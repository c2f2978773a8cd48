/**
 * What the fight, the move and the new game do to the board, proved about
 * the functions of BoardSpec.
 */
module BoardFacts {
  import opened Wrappers
  import opened BounceData
  import opened Commands
  import opened Pieces
  import opened Bounce
  import opened BoardSpec

  // ---------------------------------------------------------------------
  // CalculateVictory

  /** The fighters end with the statistics ResolveFight gave them, and CalculateVictory returns its result. */
  lemma {:induction false} VictoryDamage(v: View, a: PieceId, d: PieceId, cfg: Config, first: Choice, second: Choice)
    requires Valid(v) && a in v.pieces && d in v.pieces && a != d && DamageConfigured(cfg.vars)
    ensures Victory(v, a, d, cfg, first, second).0.pieces[a].bounceData ==
      ResolveFight(cfg.vars, v.pieces[a].bounceData, v.pieces[d].bounceData).attacker
    ensures Victory(v, a, d, cfg, first, second).0.pieces[d].bounceData ==
      ResolveFight(cfg.vars, v.pieces[a].bounceData, v.pieces[d].bounceData).defender
    ensures Victory(v, a, d, cfg, first, second).1.Success? ==>
      Victory(v, a, d, cfg, first, second).1.value == ResolveFight(cfg.vars, v.pieces[a].bounceData, v.pieces[d].bounceData).result
    ensures Victory(v, a, d, cfg, first, second).0.pieces[a].isWhite == v.pieces[a].isWhite
    ensures Victory(v, a, d, cfg, first, second).0.pieces[a].kind == v.pieces[a].kind
  {
    var fight := ResolveFight(cfg.vars, v.pieces[a].bounceData, v.pieces[d].bounceData);
    var v1 := Damaged(v, a, d, fight);
    assert v1.pieces[a].bounceData == fight.attacker && v1.pieces[d].bounceData == fight.defender;
    var b: Step;
    if fight.result == Win {
      b := WinBranch(v1, a, d, cfg, first);
    } else if fight.result == Lose {
      b := LoseBranch(v1, a, d, cfg, first);
    } else {
      b := DrawBranch(v1, a, d, cfg, first, second);
    }
    assert Victory(v, a, d, cfg, first, second) == b;
    assert SamePiece(b.0.pieces[a], v1.pieces[a]) && SamePiece(b.0.pieces[d], v1.pieces[d]);
  }

  /**
   * A won fight: the defender's square is emptied; the defender survives
   * only when it is alive and a free square was found, and then stands on
   * that square; the attacker stays in play exactly when it is alive, and
   * a dead attacker takes the selection with it.
   */
  lemma {:induction false} WinOutcome(v: View, a: PieceId, d: PieceId, cfg: Config, first: Choice)
    requires Valid(v) && a in v.pieces && d in v.pieces && a != d
    requires Pos(v.pieces[a]) in v.cells && v.cells[Pos(v.pieces[a])] == Some(a)
    requires Pos(v.pieces[d]) in v.cells && v.cells[Pos(v.pieces[d])] == Some(d)
    requires WinBranch(v, a, d, cfg, first).1.Success?
    ensures var r := WinBranch(v, a, d, cfg, first).0;
      && r.cells[Pos(v.pieces[d])] == None
      && (d in r.active <==> d in v.active && IsAlive(v.pieces[d]) && DefenderSpaces(v, d) != [])
      && (d in r.active ==> Pos(r.pieces[d]) in DefenderSpaces(v, d) && r.cells[Pos(r.pieces[d])] == Some(d))
      && (a in r.active <==> a in v.active && IsAlive(v.pieces[a]))
      && (IsAlive(v.pieces[a]) ==> r.selected == v.selected && r.cells[Pos(v.pieces[a])] == Some(a))
      && (!IsAlive(v.pieces[a]) ==> r.selected.None? && r.cells[Pos(v.pieces[a])] == None)
  {
    var free := DefenderSpaces(v, d);
    var dp := Pos(v.pieces[d]);
    var ap := Pos(v.pieces[a]);
    var v2 :=
      if free == [] then Kill(v, d)
      else BouncePiece(v, d, BounceToTile(cfg.useLLM, first, free).value);
    if free != [] {
      var t := BounceToTile(cfg.useLLM, first, free).value;
      assert t != ap && t != dp;
    }
    assert v2.pieces[a] == v.pieces[a];
    assert v2.cells[ap] == Some(a);
  }

  /**
   * A lost fight: a live defender keeps its square; a dead one leaves play.
   * A live attacker lands on one of the defender's free squares; with none
   * it is killed and the selection cleared; a dead attacker that had a
   * square leaves play but stays selected.
   */
  lemma {:induction false} LoseOutcome(v: View, a: PieceId, d: PieceId, cfg: Config, first: Choice)
    requires Valid(v) && a in v.pieces && d in v.pieces && a != d
    requires Pos(v.pieces[a]) in v.cells && v.cells[Pos(v.pieces[a])] == Some(a)
    requires Pos(v.pieces[d]) in v.cells && v.cells[Pos(v.pieces[d])] == Some(d)
    requires LoseBranch(v, a, d, cfg, first).1.Success?
    ensures var r := LoseBranch(v, a, d, cfg, first).0;
      && (IsAlive(v.pieces[d]) ==> r.cells[Pos(v.pieces[d])] == Some(d) && r.pieces[d] == v.pieces[d])
      && (d in r.active <==> d in v.active && IsAlive(v.pieces[d]))
      && (a in r.active <==> a in v.active && IsAlive(v.pieces[a]) && DefenderSpaces(v, d) != [])
      && (a in r.active ==> Pos(r.pieces[a]) in DefenderSpaces(v, d) && r.cells[Pos(r.pieces[a])] == Some(a))
      && (DefenderSpaces(v, d) == [] ==> r.selected.None?)
      && (DefenderSpaces(v, d) != [] ==> r.selected == v.selected)
      && (!IsAlive(v.pieces[d]) ==> r.cells[Pos(v.pieces[d])] == None)
      && r.cells[Pos(v.pieces[a])] == None
  {
    var free := DefenderSpaces(v, d);
    var dp := Pos(v.pieces[d]);
    if free != [] {
      var t := BounceToTile(cfg.useLLM, first, free).value;
      assert t != dp && t != Pos(v.pieces[a]);
    }
  }

  /**
   * A draw with free squares and both fighters alive: they end on two
   * different squares of the defender's free list, each holding its piece.
   */
  lemma {:induction false} DrawSeparates(v: View, a: PieceId, d: PieceId, cfg: Config, first: Choice, second: Choice)
    requires Valid(v) && a in v.pieces && d in v.pieces && a != d
    requires Pos(v.pieces[a]) in v.cells && v.cells[Pos(v.pieces[a])] == Some(a)
    requires IsAlive(v.pieces[a]) && IsAlive(v.pieces[d]) && DefenderSpaces(v, d) != []
    ensures DrawBranch(v, a, d, cfg, first, second).1.Success? ==>
      var r := DrawBranch(v, a, d, cfg, first, second).0;
      var free := DefenderSpaces(v, d);
      && Pos(r.pieces[d]) in free && Pos(r.pieces[a]) in free
      && Pos(r.pieces[d]) != Pos(r.pieces[a])
      && r.cells[Pos(r.pieces[d])] == Some(d) && r.cells[Pos(r.pieces[a])] == Some(a)
      && r.active == v.active
  {
    if DrawBranch(v, a, d, cfg, first, second).1.Failure? {
      return;
    }
    var free := DefenderSpaces(v, d);
    var dp := Pos(v.pieces[d]);
    AdjacentFreeOrdered(v.cells, dp.0, dp.1);
    var t1 := BounceToTile(cfg.useLLM, first, free).value;
    RemoveFirstGone(free, t1);
    var rest := RemoveFirst(free, t1);
    var t2 := BounceToTile(cfg.useLLM, second, rest).value;
    assert t2 in free && t2 != t1;
    var v2 := BouncePiece(v, d, t1);
    assert v2.pieces[a] == v.pieces[a];
    assert t1 != Pos(v.pieces[a]);
  }

  /**
   * A draw with exactly one free square and a live defender: the defender
   * takes it and the attacker's pick, made from the emptied list, fails.
   */
  lemma {:induction false} DrawOneSquareFails(v: View, a: PieceId, d: PieceId, cfg: Config, first: Choice, second: Choice)
    requires Valid(v) && a in v.pieces && d in v.pieces && a != d
    requires IsAlive(v.pieces[d]) && |DefenderSpaces(v, d)| == 1
    ensures DrawBranch(v, a, d, cfg, first, second).1.Failure?
    ensures BounceToTile(cfg.useLLM, first, DefenderSpaces(v, d)).Success? ==>
      DrawBranch(v, a, d, cfg, first, second).0.cells[DefenderSpaces(v, d)[0]] == Some(d)
  {
    var free := DefenderSpaces(v, d);
    if BounceToTile(cfg.useLLM, first, free).Success? {
      var t1 := BounceToTile(cfg.useLLM, first, free).value;
      assert t1 == free[0];
      assert RemoveFirst(free, t1) == [];
    }
  }

  /** A draw with no free square: both fighters leave play and the selection is cleared. */
  lemma {:induction false} DrawNoSpace(v: View, a: PieceId, d: PieceId, cfg: Config, first: Choice, second: Choice)
    requires Valid(v) && a in v.pieces && d in v.pieces && a != d
    requires DefenderSpaces(v, d) == []
    ensures var r := DrawBranch(v, a, d, cfg, first, second);
      && r.1 == Success(Draw)
      && a !in r.0.active && d !in r.0.active
      && r.0.cells[Pos(v.pieces[a])] == None && r.0.cells[Pos(v.pieces[d])] == None
      && r.0.selected.None?
  {
  }

  /**
   * A draw with free squares but a dead defender: only the defender leaves
   * play and its square is emptied. The attacker stays where it was, in
   * play as before even at health 0 or below, and the selection is kept.
   */
  lemma {:induction false} DrawDeadDefender(v: View, a: PieceId, d: PieceId, cfg: Config, first: Choice, second: Choice)
    requires Valid(v) && a in v.pieces && d in v.pieces && a != d
    requires DefenderSpaces(v, d) != [] && !IsAlive(v.pieces[d])
    ensures var r := DrawBranch(v, a, d, cfg, first, second);
      && r.1 == Success(Draw)
      && d !in r.0.active
      && (a in r.0.active <==> a in v.active)
      && r.0.pieces == v.pieces && r.0.selected == v.selected
      && r.0.cells == v.cells[Pos(v.pieces[d]) := None]
  {
  }

  // ---------------------------------------------------------------------
  // SpawnAllChessmans and EndGame

  /**
   * The starting position this game sets up, square by square: white on
   * rows 0 and 1, black on rows 6 and 7, kings on files 3 (white) and 4
   * (black), queens opposite them.
   */
  function StartingPiece(t: Tile): Option<(Kind, bool)> {
    if !OnBoard(t.0, t.1) then None
    else if t.1 == 1 then Some((Pawn, true))
    else if t.1 == 6 then Some((Pawn, false))
    else if t.1 == 0 then Some((BackRankKind(t.0, true), true))
    else if t.1 == 7 then Some((BackRankKind(t.0, false), false))
    else None
  }

  /** Rook, knight, bishop from each edge; the white king on file 3, the black king on file 4. */
  function BackRankKind(f: int, isWhite: bool): Kind {
    if f == 0 || f == 7 then Rook
    else if f == 1 || f == 6 then Knight
    else if f == 2 || f == 5 then Bishop
    else if (f == 3) == isWhite then King
    else Queen
  }

  /** Which of the 32 SpawnChessman calls puts a piece on square t. */
  function SpawnIndex(t: Tile): (r: Option<nat>)
    ensures r.Some? ==> r.value < 32
  {
    if !OnBoard(t.0, t.1) then None
    else if t.1 == 0 then Some(BackRankCall(t.0, true))
    else if t.1 == 1 then Some(8 + t.0)
    else if t.1 == 7 then Some(16 + BackRankCall(t.0, false))
    else if t.1 == 6 then Some(24 + t.0)
    else None
  }

  /** The back-row call that targets file f. */
  function BackRankCall(f: int, isWhite: bool): (k: nat)
    ensures k < 8
  {
    if f == 3 then (if isWhite then 0 else 1)
    else if f == 4 then (if isWhite then 1 else 0)
    else if f == 0 then 2
    else if f == 7 then 3
    else if f == 2 then 4
    else if f == 5 then 5
    else if f == 1 then 6
    else 7
  }

  /** Every call targets its own square, with the piece the starting position has there. */
  lemma {:induction false} SpawnCallSquare(k: nat)
    requires k < 32
    ensures SpawnIndex(SpawnCall(k).1) == Some(k)
    ensures StartingPiece(SpawnCall(k).1) == Some((PrefabKind(SpawnCall(k).0), SpawnCall(k).2))
  {
    if k < 8 {
      assert k in {0, 1, 2, 3, 4, 5, 6, 7};
    } else if 16 <= k < 24 {
      assert k in {16, 17, 18, 19, 20, 21, 22, 23};
    }
  }

  lemma {:induction false} SquareOfSpawnIndex(t: Tile)
    requires SpawnIndex(t).Some?
    ensures SpawnCall(SpawnIndex(t).value).1 == t
  {
    if t.1 == 0 || t.1 == 7 {
      assert t.0 in {0, 1, 2, 3, 4, 5, 6, 7};
    }
  }

  /** The piece the k-th call creates. */
  function SpawnedPiece(cfg: Config, draws: seq<StatDraw>, k: nat): Chessman
    requires Configured(cfg) && k < 32 && k < |draws|
  {
    var call := SpawnCall(k);
    Chessman(PrefabKind(call.0), call.2, call.1.0, call.1.1, CreateBounceData(cfg.vars, draws[k]))
  }

  /** One step of Spawns: the k-th call on top of the first k - 1. */
  lemma {:induction false} SpawnsStep(v: View, cfg: Config, draws: seq<StatDraw>, k: nat)
    requires Configured(cfg) && 0 < k <= 32 && |draws| >= k
    ensures Spawns(v, cfg, draws, k).cells == Spawns(v, cfg, draws, k - 1).cells[SpawnCall(k - 1).1 := Some(v.nextId + k - 1)]
    ensures Spawns(v, cfg, draws, k).pieces == Spawns(v, cfg, draws, k - 1).pieces[v.nextId + k - 1 := SpawnedPiece(cfg, draws, k - 1)]
    ensures Spawns(v, cfg, draws, k).active == Spawns(v, cfg, draws, k - 1).active + {v.nextId + k - 1}
  {
    var prev := Spawns(v, cfg, draws, k - 1);
    var call := SpawnCall(k - 1);
    assert Spawns(v, cfg, draws, k) == Spawn(prev, call.0, call.1.0, call.1.1, call.2, cfg, draws[k - 1]);
  }

  /** After the first k calls, a square they target holds its new piece; the others are as before. */
  lemma {:induction false} SpawnsCell(v: View, cfg: Config, draws: seq<StatDraw>, k: nat, t: Tile)
    requires Configured(cfg) && k <= 32 && |draws| >= k && t in v.cells
    ensures t in Spawns(v, cfg, draws, k).cells
    ensures Spawns(v, cfg, draws, k).cells[t] ==
      if SpawnIndex(t).Some? && SpawnIndex(t).value < k then Some(v.nextId + SpawnIndex(t).value) else v.cells[t]
  {
    if k > 0 {
      SpawnsCell(v, cfg, draws, k - 1, t);
      SpawnsStep(v, cfg, draws, k);
      SpawnCallSquare(k - 1);
      if SpawnIndex(t).Some? {
        SquareOfSpawnIndex(t);
      }
    }
  }

  /** The j-th call creates the piece with id v.nextId + j. */
  lemma {:induction false} SpawnsPiece(v: View, cfg: Config, draws: seq<StatDraw>, k: nat, j: nat)
    requires Configured(cfg) && k <= 32 && |draws| >= k && j < k
    ensures v.nextId + j in Spawns(v, cfg, draws, k).pieces
    ensures Spawns(v, cfg, draws, k).pieces[v.nextId + j] == SpawnedPiece(cfg, draws, j)
  {
    SpawnsStep(v, cfg, draws, k);
    if j < k - 1 {
      SpawnsPiece(v, cfg, draws, k - 1, j);
    }
  }

  /** The first k calls add exactly the ids v.nextId .. v.nextId + k - 1 to the active list. */
  lemma {:induction false} SpawnsActive(v: View, cfg: Config, draws: seq<StatDraw>, k: nat, id: PieceId)
    requires Configured(cfg) && k <= 32 && |draws| >= k
    ensures id in Spawns(v, cfg, draws, k).active <==> id in v.active || v.nextId <= id < v.nextId + k
  {
    if k > 0 {
      SpawnsStep(v, cfg, draws, k);
      SpawnsActive(v, cfg, draws, k - 1, id);
    }
  }

  /** The squares no call targets are exactly those the starting position leaves empty. */
  lemma {:induction false} UntargetedEmpty(t: Tile)
    requires SpawnIndex(t).None?
    ensures StartingPiece(t).None?
  {
  }

  /** One square after the 32 calls on a board where it was empty: the piece the starting position has there, at full health. */
  lemma {:induction false} SpawnsSquare(v: View, cfg: Config, draws: seq<StatDraw>, t: Tile)
    requires Configured(cfg) && |draws| >= 32 && t in v.cells && v.cells[t].None?
    ensures t in Spawns(v, cfg, draws, 32).cells
    ensures Spawns(v, cfg, draws, 32).cells[t].Some? <==> StartingPiece(t).Some?
    ensures Spawns(v, cfg, draws, 32).cells[t].Some? ==>
      && Spawns(v, cfg, draws, 32).cells[t].value in Spawns(v, cfg, draws, 32).pieces
      && StartingPiece(t) == Some((Spawns(v, cfg, draws, 32).pieces[Spawns(v, cfg, draws, 32).cells[t].value].kind,
                                   Spawns(v, cfg, draws, 32).pieces[Spawns(v, cfg, draws, 32).cells[t].value].isWhite))
      && IsAlive(Spawns(v, cfg, draws, 32).pieces[Spawns(v, cfg, draws, 32).cells[t].value])
      && Spawns(v, cfg, draws, 32).pieces[Spawns(v, cfg, draws, 32).cells[t].value].bounceData.currentHealth
         == Spawns(v, cfg, draws, 32).pieces[Spawns(v, cfg, draws, 32).cells[t].value].bounceData.maxHealth
  {
    SpawnsCell(v, cfg, draws, 32, t);
    if SpawnIndex(t).Some? {
      var k := SpawnIndex(t).value;
      SquareOfSpawnIndex(t);
      SpawnCallSquare(k);
      SpawnsPiece(v, cfg, draws, 32, k);
      CreatedStatsAlive(cfg.vars, draws[k], Spawns(v, cfg, draws, 32).pieces[v.nextId + k]);
    } else {
      UntargetedEmpty(t);
    }
  }

  /** One id after the 32 calls on a board with no active pieces: active exactly when new, and then on its own square. */
  lemma {:induction false} SpawnsId(v: View, cfg: Config, draws: seq<StatDraw>, id: PieceId)
    requires Configured(cfg) && |draws| >= 32 && v.active == {}
    requires forall t :: t in v.cells <==> OnBoard(t.0, t.1)
    ensures id in Spawns(v, cfg, draws, 32).active <==> v.nextId <= id < v.nextId + 32
    ensures id in Spawns(v, cfg, draws, 32).active ==>
      && id in Spawns(v, cfg, draws, 32).pieces
      && Pos(Spawns(v, cfg, draws, 32).pieces[id]) in Spawns(v, cfg, draws, 32).cells
      && Spawns(v, cfg, draws, 32).cells[Pos(Spawns(v, cfg, draws, 32).pieces[id])] == Some(id)
  {
    SpawnsActive(v, cfg, draws, 32, id);
    if v.nextId <= id < v.nextId + 32 {
      var k := id - v.nextId;
      SpawnCallSquare(k);
      SpawnsPiece(v, cfg, draws, 32, k);
      SpawnsCell(v, cfg, draws, 32, SpawnCall(k).1);
    }
  }

  /**
   * SpawnAllChessmans sets up the starting position: exactly the squares of
   * rows 0, 1, 6 and 7 are occupied, each by the piece and side the
   * starting position has there, at full health.
   */
  lemma {:induction false} InitialSquares(v: View, cfg: Config, draws: seq<StatDraw>)
    requires Configured(cfg) && |draws| >= 32
    ensures forall t: Tile | OnBoard(t.0, t.1) :: t in SpawnAll(v, cfg, draws).cells
    ensures forall t: Tile | OnBoard(t.0, t.1) :: SpawnAll(v, cfg, draws).cells[t].Some? <==> StartingPiece(t).Some?
    ensures forall t: Tile | OnBoard(t.0, t.1) && SpawnAll(v, cfg, draws).cells[t].Some? ::
      && SpawnAll(v, cfg, draws).cells[t].value in SpawnAll(v, cfg, draws).pieces
      && (var c := SpawnAll(v, cfg, draws).pieces[SpawnAll(v, cfg, draws).cells[t].value];
          && StartingPiece(t) == Some((c.kind, c.isWhite))
          && IsAlive(c) && c.bounceData.currentHealth == c.bounceData.maxHealth)
  {
    var v0 := Cleared(v);
    assert SpawnAll(v, cfg, draws) == Spawns(v0, cfg, draws, 32);
    forall t: Tile | OnBoard(t.0, t.1)
      ensures t in SpawnAll(v, cfg, draws).cells
      ensures SpawnAll(v, cfg, draws).cells[t].Some? <==> StartingPiece(t).Some?
      ensures SpawnAll(v, cfg, draws).cells[t].Some? ==>
        && SpawnAll(v, cfg, draws).cells[t].value in SpawnAll(v, cfg, draws).pieces
        && (var c := SpawnAll(v, cfg, draws).pieces[SpawnAll(v, cfg, draws).cells[t].value];
            && StartingPiece(t) == Some((c.kind, c.isWhite))
            && IsAlive(c) && c.bounceData.currentHealth == c.bounceData.maxHealth)
    {
      SpawnsSquare(v0, cfg, draws, t);
    }
  }

  /** After SpawnAllChessmans the active list is exactly the 32 new pieces. */
  lemma {:induction false} InitialActive(v: View, cfg: Config, draws: seq<StatDraw>)
    requires Configured(cfg) && |draws| >= 32
    ensures forall id: PieceId :: id in SpawnAll(v, cfg, draws).active <==> v.nextId <= id < v.nextId + 32
  {
    var v0 := Cleared(v);
    assert SpawnAll(v, cfg, draws) == Spawns(v0, cfg, draws, 32);
    forall id: PieceId
      ensures id in SpawnAll(v, cfg, draws).active <==> v.nextId <= id < v.nextId + 32
    {
      SpawnsId(v0, cfg, draws, id);
    }
  }

  /** After SpawnAllChessmans every active piece stands on the square the grid gives it. */
  lemma {:induction false} InitialPlaced(v: View, cfg: Config, draws: seq<StatDraw>)
    requires Configured(cfg) && |draws| >= 32
    ensures forall id | id in SpawnAll(v, cfg, draws).active ::
      && id in SpawnAll(v, cfg, draws).pieces
      && Pos(SpawnAll(v, cfg, draws).pieces[id]) in SpawnAll(v, cfg, draws).cells
      && SpawnAll(v, cfg, draws).cells[Pos(SpawnAll(v, cfg, draws).pieces[id])] == Some(id)
  {
    var v0 := Cleared(v);
    assert SpawnAll(v, cfg, draws) == Spawns(v0, cfg, draws, 32);
    forall id | id in SpawnAll(v, cfg, draws).active
      ensures && id in SpawnAll(v, cfg, draws).pieces
              && Pos(SpawnAll(v, cfg, draws).pieces[id]) in SpawnAll(v, cfg, draws).cells
              && SpawnAll(v, cfg, draws).cells[Pos(SpawnAll(v, cfg, draws).pieces[id])] == Some(id)
    {
      SpawnsId(v0, cfg, draws, id);
    }
  }

  /**
   * EndGame: white moves next and the board is back at the starting
   * position with 32 new pieces, none of them an old one; the en passant
   * square and the selection are left as they were.
   */
  lemma {:induction false} EndGameRestarts(v: View, cfg: Config, draws: seq<StatDraw>)
    requires Valid(v) && Configured(cfg) && |draws| >= 32
    ensures Valid(EndGame(v, cfg, draws)) && EndGame(v, cfg, draws).isWhiteTurn
    ensures EndGame(v, cfg, draws) == SpawnAll(v.(isWhiteTurn := true), cfg, draws)
    ensures forall id | id in EndGame(v, cfg, draws).active :: id !in v.pieces
    ensures EndGame(v, cfg, draws).enPassant == v.enPassant && EndGame(v, cfg, draws).selected == v.selected
  {
    var w := v.(isWhiteTurn := true);
    assert EndGame(v, cfg, draws) == SpawnAll(w, cfg, draws);
    SpawnAllValid(w, cfg, draws);
    InitialActive(w, cfg, draws);
    forall id | id in SpawnAll(w, cfg, draws).active
      ensures id !in v.pieces
    {
      assert w.nextId <= id;
    }
  }
}
