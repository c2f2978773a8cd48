# Bounce chess: a Dafny model of the board, the combat engine and the variable store

A chess variant in which a capture is not automatic. The attacker and
the defender fight a "bounce":
- Their strengths decide Win, Lose or Draw.
- Both take damage from configured amounts.
- The piece that loses the position contest is bounced to a free square
  next to the defender, or removed when none is free.

The game is a Unity project in C#. This Dafny project models its rule
logic and proves what that logic promises:

- `Board` (board_manager.dfy) is the `BoardManager` object.
  - Its state is the 8x8 `Chessmans` grid as an `array2`, the active
    pieces, the turn, the two-cell `EnPassantMove` array, the selected
    piece and the allowed-move mask, all updated in place.
  - Every method is proved to leave exactly the state that the matching
    function of `BoardSpec` computes from the state before the call.
  - Every public method (the constructor, `Update`, `SelectChessman`,
    `MoveChessman`, `EndGame`) keeps the class invariant `Valid()`. The
    private helpers keep the array shape and are pinned to a `BoardSpec`
    function that keeps `BoardSpec.Valid`.
- `BoardSpec` (board_spec.dfy) is the board as a value (`View`), with
  the same operations as pure functions.
  - The structural invariant is `Valid`: each square names a known piece
    standing on that square, so no piece is on two squares.
  - Each operation is proved to preserve it.
- `BoardFacts` and `MoveFacts` (board_facts.dfy, move_facts.dfy) hold
  the rules those functions satisfy:
  - the Win, Lose and Draw outcomes of a fight;
  - the initial layout of the 32 pieces;
  - the restart after a king capture;
  - the turn flip, en passant and promotion.
- `Bounce` (bounce_system.dfy) is the `BounceSystem` combat engine:
  - strength comparison, damage, stat creation;
  - the choice of a bounce square, either by a random index or from the
    first digit run of a language model's reply;
  - the initialisation commands.
- `Commands` (commands.dfy) is the `UniversalCommandSystem` variable
  store: a dictionary of tagged string, float and bool values.
- `Pieces` and `BounceData` (chessman.dfy, bounce_data.dfy) are the
  `Chessman` piece and its `ChessmanBounceData` statistics.

Pieces are ids mapped to `Chessman` records. A killed piece keeps its
record, as the C# object outlives `Destroy` until the frame ends; it
only leaves the active set.

Parameters stand in for what the model cannot see:
- A random number is a `nat` draw.
- A language model's reply is a string.
- A selected piece's move mask is an array.

The .NET exceptions the code can raise on these inputs are explicit
`Fault` results. A move that raises one stops where the exception
leaves it.

In four places the game's intended rules and its code disagree, and the
model follows the code:
- **Missing combat variables.** The intended rule: a missing
  `winnerDamage`, `loserDamage`, `maxHealth` or `maxStrength` is fatal.
  The code only calls `Debug.Assert`, which does not halt, and `TryGetValue`
  leaves 0 in its out parameter. The model does the same
  (`Bounce.FloatOrDefault`, `Bounce.UnconfiguredFightHarmless`). Only a
  stored value of the wrong type, which makes the cast throw, is a
  precondition.
- **A draw with exactly one free square.** The intended rule: the second
  piece is then dealt with deterministically. The code draws the
  attacker's square from the now empty list, which throws
  (`BoardFacts.DrawOneSquareFails`).
- **A draw in which the defender dies.** The intended rule: a dead
  piece never occupies a square. The code removes only the defender
  here, so the attacker stays on its square even at health 0 or below
  (`BoardFacts.DrawDeadDefender`).
- **Clicks while a capture is resolving.** The intended rule: they are
  rejected or queued. The code does neither. The model runs each
  move to completion before the next click (see "Left out").

## Model

| member | source | states |
|---|---|---|
| Board.BoardManager.constructor | Assets/Scripts/BoardManager.cs:44-51 | Start. The store is the result of running the initialisation commands in order. The board is `Valid` and is the 32-piece set-up spawned on an empty board, with white to move, no en passant square and no selection. |
| Board.BoardManager.Update | Assets/Scripts/BoardManager.cs:54-77 | A click off the board changes nothing. With no live selection the click is `SelectChessman`; otherwise it is `MoveChessman` and reports the move's outcome. The board stays `Valid`. |
| Board.BoardManager.SelectChessman | Assets/Scripts/BoardManager.cs:79-110 | The new state is `Select` of the old: only the selection can change. A fresh copy of the mask is stored exactly when the square holds a piece of the side to move. The invariant, including "a live selection belongs to the side to move", is kept. |
| Board.BoardManager.AnyAllowed | Assets/Scripts/BoardManager.cs:85-99 | The early-exit double loop finds a move exactly when some cell of the 8x8 mask is true. |
| Board.BoardManager.CalculateVictory | Assets/Scripts/BoardManager.cs:112-199 | State and result are exactly `Victory` of the old state: the damage is written back and then the Win, Lose or Draw branch plays out. |
| Board.BoardManager.WinCase | Assets/Scripts/BoardManager.cs:121-141 | The state is `WinBranch`: the defender is bounced or killed, then a dead attacker is killed and the selection is cleared. |
| Board.BoardManager.LoseCase | Assets/Scripts/BoardManager.cs:142-163 | The state is `LoseBranch`: the attacker is bounced, or killed with the selection cleared, then a dead defender is killed. |
| Board.BoardManager.DrawCase | Assets/Scripts/BoardManager.cs:164-193 | The state is `DrawBranch`: both pieces bounce, or only a dead defender is killed, or both are killed when no square is free. |
| Board.BoardManager.BounceBoth | Assets/Scripts/BoardManager.cs:168-178 | The state is `DrawBounces`: the defender takes the first pick, and the attacker takes a second pick from the list without the first. |
| Board.BoardManager.BounceAttacker | Assets/Scripts/BoardManager.cs:173-177 | The state is `AttackerBounce`; a dead attacker, destroyed by then, leaves no selection. |
| Board.BoardManager.BounceChessman | Assets/Scripts/BoardManager.cs:201-214 | The state is `BouncePiece`: a live piece moves to the target and a dead one is killed. |
| Board.BoardManager.Relocate | Assets/Scripts/BoardManager.cs:205-208 | The state is `Occupy`: the old square is emptied, the coordinates follow and the target holds the piece. |
| Board.BoardManager.KillChessman | Assets/Scripts/BoardManager.cs:216-221 | The state is `Kill`: only the piece's own square is emptied, and the piece leaves the active set. |
| Board.BoardManager.MoveChessman | Assets/Scripts/BoardManager.cs:223-294 | State and outcome are exactly `BoardSpec.MoveChessman` of the old state and the old mask cell, and the board stays `Valid`. |
| Board.BoardManager.Capture | Assets/Scripts/BoardManager.cs:227-244 | State and result are `Fought`: a fight when the square holds an enemy piece, otherwise a Win with nothing changed. |
| Board.BoardManager.AfterCapture | Assets/Scripts/BoardManager.cs:245-293 | State and outcome are `AfterFight`: the en passant capture, then the pawn rules, then the move and the turn flip. |
| Board.BoardManager.CaptureEnPassant | Assets/Scripts/BoardManager.cs:245-255 | It faults, changing nothing, exactly when (x, y) is the armed square and the square one row behind is empty. Otherwise the piece behind an armed target is killed, and the en passant square is reset to (-1, -1). |
| Board.BoardManager.ApplyPawnRules | Assets/Scripts/BoardManager.cs:256-275 | The state is `PawnStage`: the pawn rules apply exactly when the selection is a pawn. |
| Board.BoardManager.PromotePawn | Assets/Scripts/BoardManager.cs:258-269 | The state is `Promote`: the pawn is killed, a queen of the row's colour is spawned on (x, y) and becomes the selection. |
| Board.BoardManager.CompleteMove | Assets/Scripts/BoardManager.cs:277-293 | The state is `Finish`: a winning selection occupies (x, y), the turn flips and the selection is dropped. |
| Board.BoardManager.SpawnChessman | Assets/Scripts/BoardManager.cs:313-335 | The state is `Spawn`: a new id of the prefab's kind stands on (x, y) with fresh statistics and joins the active set. The model takes the side from the call's `isWhite` argument; in the code that argument only picks the orientation and the side is the prefab's own field. The two agree on every call (`BoardSpec.SpawnCall`, and prefabs 1 and 7 on promotion). |
| Board.BoardManager.GetAdjacentFreeSpaces | Assets/Scripts/BoardManager.cs:346-364 | The nested loops return exactly `AdjacentFree` of the grid, whose content and order the lemmas below pin down. |
| Board.BoardManager.SpawnAllChessmans | Assets/Scripts/BoardManager.cs:377-433 | A fresh grid is allocated and the state is `SpawnAll` of the old: the active set and grid are cleared, then the 32 calls run in order. |
| Board.BoardManager.SpawnArmies | Assets/Scripts/BoardManager.cs:381-432 | The four groups of calls, in source order, produce the first 32 entries of the call table. |
| Board.BoardManager.SpawnWhitePieces | Assets/Scripts/BoardManager.cs:381-400 | The eight white back-row calls are calls 0-7 of the table. |
| Board.BoardManager.SpawnPawns | Assets/Scripts/BoardManager.cs:402-406 | Each pawn loop is eight consecutive calls of the table (8-15 white, 24-31 black). |
| Board.BoardManager.SpawnBlackPieces | Assets/Scripts/BoardManager.cs:408-426 | The eight black back-row calls are calls 16-23 of the table. |
| Board.BoardManager.EndGame | Assets/Scripts/BoardManager.cs:435-450 | The state is `BoardSpec.EndGame`: white to move, and a new set-up on a fresh grid. The class invariant `Valid()` is kept. |
| Board.BackRankCalls | Assets/Scripts/BoardManager.cs:384-426 | The call table lists the source's king, queen, rook, bishop and knight calls with their prefabs and files. |
| BoardSpec.SinglePosition | Assets/Scripts/BoardManager.cs:201-221 | On a valid board a piece on a square has those coordinates and is on no other square. |
| BoardSpec.Kill | Assets/Scripts/BoardManager.cs:216-221 | Valid is kept. Exactly the piece's own square becomes empty and the piece leaves the active set. The pieces, turn, en passant square and selection are unchanged. |
| BoardSpec.BouncePiece | Assets/Scripts/BoardManager.cs:201-214 | Valid is kept. A live piece leaves its square, its coordinates become the target and the target holds it, with the active set unchanged. A dead piece is `Kill`ed. |
| BoardSpec.Occupy | Assets/Scripts/BoardManager.cs:277-283 | Valid is kept. The old square is emptied, the target holds the piece and only its coordinates change. |
| BoardSpec.Damaged | Assets/Scripts/BoardManager.cs:114 | Valid is kept. Only the two pieces' statistics change; they become the fight's results. |
| BoardSpec.SpawnKeepsValid | Assets/Scripts/BoardManager.cs:313-335 | A spawn on the board keeps it valid, and the new id was unused. |
| BoardSpec.FreeAmong | Assets/Scripts/BoardManager.cs:349-361 | The first n loop steps collect at most n squares, and each is free on the board. |
| BoardSpec.AdjacentFree | Assets/Scripts/BoardManager.cs:346-364 | At most 9 squares, each on the board and empty. |
| BoardSpec.AdjacentFreeMembers | Assets/Scripts/BoardManager.cs:346-364 | A square is in the list exactly when it is on the board, empty and within one step of the centre, the centre included. |
| BoardSpec.AdjacentFreeOrdered | Assets/Scripts/BoardManager.cs:349-358 | The list is in row-major order (lower row first, then lower column), so it has no duplicates. |
| BoardSpec.FreeAmongMembers | Assets/Scripts/BoardManager.cs:349-358 | A square is among the first n steps' results exactly when it is free and is one of the first n candidates. |
| BoardSpec.FreeAmongSorted | Assets/Scripts/BoardManager.cs:349-358 | Every prefix of the loop's result is in row-major order. |
| BoardSpec.RemoveFirst | Assets/Scripts/BoardManager.cs:173 | `List.Remove`: one element fewer when the square is present, the same list otherwise, and nothing new. |
| BoardSpec.RemoveFirstGone | Assets/Scripts/BoardManager.cs:171-174 | Removing the defender's square from a list without duplicates leaves no copy of it for the attacker's pick. |
| BoardSpec.DefenderSpaces | Assets/Scripts/BoardManager.cs:116 | The bounce squares are on the board and empty before anyone moves. |
| BoardSpec.WinBranch | Assets/Scripts/BoardManager.cs:121-141 | Valid is kept; the result is Win unless a fault ends it; the turn, en passant square and ids are unchanged; no piece joins the active set; each piece keeps its kind, side and statistics. |
| BoardSpec.LoseBranch | Assets/Scripts/BoardManager.cs:142-163 | The same frame as the Win branch, with the result Lose. |
| BoardSpec.DrawBranch | Assets/Scripts/BoardManager.cs:164-193 | The same frame as the Win branch, with the result Draw; its three cases are proved in `BoardFacts.DrawSeparates`, `BoardFacts.DrawDeadDefender` and `BoardFacts.DrawNoSpace`. |
| BoardSpec.DrawBounces | Assets/Scripts/BoardManager.cs:168-178 | The same frame, for the two bounces of a draw. |
| BoardSpec.AttackerBounce | Assets/Scripts/BoardManager.cs:174-177 | The same frame, for the attacker's bounce. |
| BoardSpec.Victory | Assets/Scripts/BoardManager.cs:112-199 | Valid is kept; the turn, en passant square and ids are unchanged; every piece keeps its kind; the active set only shrinks; a fault leaves the selection as it was. |
| BoardSpec.SpawnCall | Assets/Scripts/BoardManager.cs:381-432 | Every one of the 32 calls targets a square on the board, uses one of the twelve prefabs, and passes `isWhite` exactly for the six white prefabs 0-5. |
| BoardSpec.WhiteBackFile | Assets/Scripts/BoardManager.cs:384-400 | The white back-row calls target files on the board. |
| BoardSpec.BlackBackFile | Assets/Scripts/BoardManager.cs:410-426 | The black back-row calls target files on the board. |
| BoardSpec.PairFile | Assets/Scripts/BoardManager.cs:390-400 | The rook, bishop and knight files are on the board. |
| BoardSpec.Spawns | Assets/Scripts/BoardManager.cs:377-433 | The first k calls use k new ids and touch neither the turn, the en passant square nor the selection. |
| BoardSpec.SpawnsKeepValid | Assets/Scripts/BoardManager.cs:377-433 | Any prefix of the calls keeps the board valid. |
| BoardSpec.Cleared | Assets/Scripts/BoardManager.cs:379-380 | The new grid covers the board and is empty, and the active set is empty; the rest is unchanged. |
| BoardSpec.SpawnAll | Assets/Scripts/BoardManager.cs:377-433 | 32 new ids; the turn, en passant square and selection are not touched. |
| BoardSpec.SpawnAllValid | Assets/Scripts/BoardManager.cs:377-433 | The set-up is a valid board. |
| BoardSpec.EndGame | Assets/Scripts/BoardManager.cs:435-450 | After the restart white is to move. |
| BoardSpec.PassedSquare | Assets/Scripts/BoardManager.cs:247-250 | Definition (no contract of its own): the pawn taken en passant is one row behind the target, seen from the side to move; used by `AfterFight` and proved about in `MoveFacts.EnPassantCapture`. |
| BoardSpec.Promote | Assets/Scripts/BoardManager.cs:258-269 | Promotion keeps the board valid. |
| BoardSpec.PawnRules | Assets/Scripts/BoardManager.cs:256-275 | Valid is kept and a selection remains (the promoted queen or the pawn). |
| BoardSpec.AfterFight | Assets/Scripts/BoardManager.cs:245-293 | The bookkeeping after the fight keeps the board valid. It either completes the move or faults with NullReference. A completed move leaves the en passant square at (-1, -1) unless the selected piece is a pawn, and its row is always -1, 2 or 5. |
| BoardSpec.PawnStage | Assets/Scripts/BoardManager.cs:256-275 | Valid is kept and the turn is untouched. Without a selected pawn nothing changes. From a reset en passant square, the row afterwards is -1, 2 or 5. |
| BoardSpec.Finish | Assets/Scripts/BoardManager.cs:277-293 | Valid is kept; the turn flips exactly once and the selection is dropped; the en passant square, active set and ids are unchanged. After a Lose or a Draw, or with no selection left, the grid and the pieces are unchanged: only a Win moves the attacker. |
| BoardSpec.MoveChessman | Assets/Scripts/BoardManager.cs:223-294 | Every move, cancelled, game-ending, completed or faulted, leaves a valid board. |
| BoardSpec.Fought | Assets/Scripts/BoardManager.cs:229-244 | Valid is kept, and the turn and en passant square are unchanged. With no enemy on (x, y) the move counts as a Win with nothing changed. Every piece keeps its kind. |
| BoardFacts.VictoryDamage | Assets/Scripts/BoardManager.cs:112-114 | After `CalculateVictory` both pieces carry the damage `ResolveFight` computed, and the result is the fight's. The attacker keeps its side and kind. |
| BoardFacts.WinOutcome | Assets/Scripts/BoardManager.cs:121-141 | On a Win the defender's square empties. The defender stays active exactly when it was alive and a square was free, and then stands on one of the free squares. The attacker stays active exactly when alive. A dead attacker clears the selection and its square is emptied; a live one keeps the selection and its square. |
| BoardFacts.LoseOutcome | Assets/Scripts/BoardManager.cs:142-163 | On a Lose a live defender keeps its square. The attacker stays active exactly when it was alive and a square was free, and then stands on a free square. The attacker's old square is emptied whether it bounces or is killed, and a dead defender's square is emptied. With no free square the selection is cleared; otherwise it is kept. |
| BoardFacts.DrawSeparates | Assets/Scripts/BoardManager.cs:166-179 | In a completed draw with both alive, the two pieces end on two distinct free squares around the defender, and no one leaves the active set. |
| BoardFacts.DrawDeadDefender | Assets/Scripts/BoardManager.cs:166-183 | With free squares and a dead defender the draw succeeds, only the defender leaves play and its square is emptied; the attacker keeps its square and its place in play even when dead, and the selection is kept. |
| BoardFacts.DrawOneSquareFails | Assets/Scripts/BoardManager.cs:171-174 | With exactly one free square and a live defender the draw always faults, after the defender has taken that square. |
| BoardFacts.DrawNoSpace | Assets/Scripts/BoardManager.cs:185-190 | With no free square both pieces are removed from the grid and the active set, and the selection is cleared. |
| BoardFacts.SpawnCallSquare | Assets/Scripts/BoardManager.cs:381-432 | Each call puts the piece of the standard layout, kind and side, on a square no other call uses. |
| BoardFacts.SquareOfSpawnIndex | Assets/Scripts/BoardManager.cs:381-432 | The index of a set-up square leads back to that square. |
| BoardFacts.SpawnsStep | Assets/Scripts/BoardManager.cs:313-335 | Each call adds one id on its square, its piece and its active entry. |
| BoardFacts.SpawnsCell | Assets/Scripts/BoardManager.cs:377-433 | After k calls a square holds the id of the call that targets it if that call has run, and is unchanged otherwise. |
| BoardFacts.SpawnsPiece | Assets/Scripts/BoardManager.cs:377-433 | The j-th new id holds the j-th call's piece. |
| BoardFacts.SpawnsActive | Assets/Scripts/BoardManager.cs:377-433 | After k calls the active set is the old one plus the k new ids. |
| BoardFacts.UntargetedEmpty | Assets/Scripts/BoardManager.cs:377-433 | A square no call targets is empty in the layout. |
| BoardFacts.SpawnsSquare | Assets/Scripts/BoardManager.cs:377-433 | On an empty start, after all 32 calls a square is occupied exactly when the layout puts a piece there. That piece has the layout's kind and side and is alive at full health. |
| BoardFacts.SpawnsId | Assets/Scripts/BoardManager.cs:377-433 | From an empty active set, the active pieces are exactly the 32 new ids, each on its own square. |
| BoardFacts.InitialSquares | Assets/Scripts/BoardManager.cs:377-433 | Rows 0, 1, 6 and 7 are full with the standard pieces and sides, and rows 2 to 5 are empty. Every piece is alive at full health. |
| BoardFacts.InitialActive | Assets/Scripts/BoardManager.cs:377-433 | The active pieces are exactly the 32 new ids. |
| BoardFacts.InitialPlaced | Assets/Scripts/BoardManager.cs:377-433 | Every active piece stands on the square the grid gives it. |
| BoardFacts.EndGameRestarts | Assets/Scripts/BoardManager.cs:435-450 | The restart is the set-up with white to move, valid, made of new pieces only. The en passant square and the selection are left as they were. |
| MoveFacts.SelectOutcome | Assets/Scripts/BoardManager.cs:79-104 | Selection changes nothing but the selection. It selects exactly the piece on (x, y) when that piece is of the side to move and has a move, and otherwise leaves the board as it was. |
| MoveFacts.SelectKeepsSelectionValid | Assets/Scripts/BoardManager.cs:79-104 | A selection only ever holds a piece of the side to move. |
| MoveFacts.MoveOutcomes | Assets/Scripts/BoardManager.cs:223-294 | Cancelled exactly when the square is not allowed, and then only the selection is dropped. GameOver exactly on an allowed enemy king. A completed move flips the turn once and drops the selection. A completed move resets the en passant square to (-1, -1) unless a pawn moved, capture or not, and its row is always -1, 2 or 5. A faulted move leaves the turn, en passant square and ids unchanged. |
| MoveFacts.MoveKeepsSelectionValid | Assets/Scripts/BoardManager.cs:223-294 | After any move the selection is empty, dead, or of the side to move. |
| MoveFacts.AfterFightFault | Assets/Scripts/BoardManager.cs:245-253 | The only fault after the fight is the empty en passant victim, and it leaves the state as it was. |
| MoveFacts.KingCaptureRestarts | Assets/Scripts/BoardManager.cs:232-240 | Taking the enemy king restarts the game with white to move, before any turn flip. |
| MoveFacts.FinishMoves | Assets/Scripts/BoardManager.cs:277-285 | A winning selection leaves its square and occupies (x, y) with those coordinates. |
| MoveFacts.FinishInPlace | Assets/Scripts/BoardManager.cs:277-283 | A promoted queen that already stands on (x, y) leaves the grid and the pieces as they are. |
| MoveFacts.PawnStageStep | Assets/Scripts/BoardManager.cs:256-275 | Off the last rows a pawn arms the en passant row only for the double steps 1 to 3 (row 2) and 6 to 4 (row 5); the column is always set to x. |
| MoveFacts.PawnStagePromotes | Assets/Scripts/BoardManager.cs:256-275 | On row 7 or 0 the pawn leaves the grid and the active set, and a new queen of that row's colour takes (x, y) and the selection. The en passant row stays unarmed, so promotion and arming never happen together. |
| MoveFacts.NoFight | Assets/Scripts/BoardManager.cs:229-244 | A move onto a square without an enemy is the bookkeeping of a Win. |
| MoveFacts.QuietMove | Assets/Scripts/BoardManager.cs:223-294 | A quiet non-pawn move is exactly: leave the square, occupy (x, y), reset en passant, flip the turn, drop the selection. |
| MoveFacts.PawnStep | Assets/Scripts/BoardManager.cs:245-285 | A quiet pawn step off the last rows moves the pawn and arms en passant only on a double step. |
| MoveFacts.PawnPromotes | Assets/Scripts/BoardManager.cs:256-285 | A quiet pawn move onto row 0 or 7 replaces the pawn by a fresh queen on (x, y) in the grid, the pieces and the active set. |
| MoveFacts.EnPassantCapture | Assets/Scripts/BoardManager.cs:245-285 | A move onto the armed square removes the piece one row behind from the grid and the active set, and the mover takes (x, y). |
| MoveFacts.EnPassantWithoutVictim | Assets/Scripts/BoardManager.cs:245-253 | With nothing behind the armed square the move faults with NullReference and changes nothing. |
| Bounce.CalculateFightResult | Assets/Scripts/BounceMechanic/BounceSystem.cs:98-112 | Win exactly when the attacker is stronger, Lose exactly when weaker, Draw exactly on equal strength. |
| Bounce.SwapRoles | Assets/Scripts/BounceMechanic/BounceSystem.cs:98-112 | Swapping attacker and defender swaps Win and Lose and keeps Draw. |
| Bounce.DamageUnit | Assets/Scripts/BounceMechanic/BounceSystem.cs:114-117 | Only current health drops, by the amount. |
| Bounce.FloatOrDefault | Assets/Scripts/BounceMechanic/UniversalCommandSystem.cs:43-55 | The out value is the stored float, or 0 when the name is unset. |
| Bounce.LookupPair | Assets/Scripts/BounceMechanic/BounceSystem.cs:68-69 | The `&` of the two lookups succeeds exactly when both names are set; both out values are read in every case. |
| Bounce.ResolveFight | Assets/Scripts/BounceMechanic/BounceSystem.cs:63-96 | The result is the strength comparison. On Win the attacker loses winnerDamage and the defender loserDamage; on Lose the reverse; on Draw both lose winnerDamage. Strength and maximum health are untouched, with no floor on health. |
| Bounce.UnconfiguredFightHarmless | Assets/Scripts/BounceMechanic/BounceSystem.cs:67-71 | With neither damage variable set, the fight changes no statistics. |
| Bounce.RandomRange | Assets/Scripts/BounceMechanic/BounceSystem.cs:38-39 | `Random.Range(lo, hi)` on ints lies in [lo, hi) when lo < hi, and is lo otherwise. |
| Bounce.RandomRangeCovers | Assets/Scripts/BounceMechanic/BounceSystem.cs:59 | Every value of the range is reached by some draw. |
| Bounce.CreateBounceData | Assets/Scripts/BounceMechanic/BounceSystem.cs:31-44 | Strength is in [1, maxStrength) and maximum health in [1, maxHealth), or exactly 1 when the bound is at most 1. Current health equals maximum health. |
| Bounce.CreatedStatsAlive | Assets/Scripts/BounceMechanic/BounceSystem.cs:38-43 | A freshly created piece is alive, with current health at most its maximum. |
| Bounce.RunEnd | Assets/Scripts/BounceMechanic/BounceSystem.cs:52 | The digit run extends to the first non-digit. |
| Bounce.RunFrom | Assets/Scripts/BounceMechanic/BounceSystem.cs:52 | `\d+` finds nothing exactly when the text has no digit. Otherwise it finds the first maximal digit run: no digit before it, only digits in it, none right after. |
| Bounce.ReplyNumber | Assets/Scripts/BounceMechanic/BounceSystem.cs:52-53 | A reply yields no number exactly when it has no digit; otherwise the number is `DecimalValue` of the first maximal digit run. |
| Bounce.DecimalValue | Assets/Scripts/BounceMechanic/BounceSystem.cs:53 | `int.Parse` of a digit run, most significant digit first; the value is below 10 to the run's length. |
| Bounce.MultiDigitReply | Assets/Scripts/BounceMechanic/BounceSystem.cs:52-53 | "pick 12" names 12: the whole run is parsed, not its first digit. |
| Bounce.BounceToTile | Assets/Scripts/BounceMechanic/BounceSystem.cs:46-61 | A success is one of the free squares. An empty list always fails. The random pick always succeeds otherwise. The oracle's pick fails exactly when the reply has no digits, the number exceeds Int32.MaxValue, or it is not below the list's length; when it succeeds it is the square at the index named by the reply's first digit run. A random pick is the square at index `RandomRange(0, Count, draw)`. |
| Bounce.SingleDigitAfterWords | Assets/Scripts/BounceMechanic/BounceSystem.cs:52 | In words followed by a single digit and a non-digit, the match is that digit. |
| Bounce.SingleDigitReply | Assets/Scripts/BounceMechanic/BounceSystem.cs:52-53 | Such a reply parses to the digit's value. |
| Bounce.ExampleReplyNumber | Assets/Scripts/BounceMechanic/BounceSystem.cs:50-53 | "I choose option 2 I guess" parses to 2. |
| Bounce.OracleReplyExample | Assets/Scripts/BounceMechanic/BounceSystem.cs:50-55 | With that reply and three free squares the oracle picks the third. |
| Bounce.BounceSystem.constructor | Assets/Scripts/BounceMechanic/BounceSystem.cs:15-21 | The store holds exactly what the initialisation commands, run in order on an empty store, leave; the oracle switch is the setting's. |
| Bounce.BounceSystem.RunInitialisationCommands | Assets/Scripts/BounceMechanic/BounceSystem.cs:23-29 | The loop runs the commands in array order. |
| Commands.Default | Assets/Scripts/BounceMechanic/UniversalCommandSystem.cs:53 | `default(T)` has the requested type. |
| Commands.Lookup | Assets/Scripts/BounceMechanic/UniversalCommandSystem.cs:43-55 | A lookup that does not throw yields a value of the requested type. The throwing cases are proved in `Commands.WrongTypeThrows`. |
| Commands.UniversalCommandSystem.constructor | Assets/Scripts/BounceMechanic/UniversalCommandSystem.cs:9 | A new store is empty. |
| Commands.UniversalCommandSystem.RunCommand | Assets/Scripts/BounceMechanic/UniversalCommandSystem.cs:11-26 | The store becomes `Run` of the old: a "set" stores the value and any other command changes nothing. |
| Commands.UniversalCommandSystem.SetValue | Assets/Scripts/BounceMechanic/UniversalCommandSystem.cs:28-41 | The name maps to the value, whatever it held before, and every other entry is unchanged. |
| Commands.UniversalCommandSystem.TryGetValue | Assets/Scripts/BounceMechanic/UniversalCommandSystem.cs:43-55 | The answer is `Lookup` of the store, and the store is not changed. |
| Commands.UniversalCommandSystem.Clear | Assets/Scripts/BounceMechanic/UniversalCommandSystem.cs:57-60 | The store is empty afterwards, so `Contains` is false for every name. |
| Commands.UniversalCommandSystem.Contains | Assets/Scripts/BounceMechanic/UniversalCommandSystem.cs:62-65 | True exactly when the name is stored. |
| Commands.SetThenGet | Assets/Scripts/BounceMechanic/UniversalCommandSystem.cs:28-48 | After a set, a get of that name and type returns the value, found exactly when it is not null. |
| Commands.SetLeavesOthers | Assets/Scripts/BounceMechanic/UniversalCommandSystem.cs:28-41 | A set leaves every other name's lookup unchanged and replaces the entry of its own name. |
| Commands.GetMissing | Assets/Scripts/BounceMechanic/UniversalCommandSystem.cs:43-55 | An unset name gives false and `default(T)`. |
| Commands.NullStringNotFound | Assets/Scripts/BounceMechanic/UniversalCommandSystem.cs:47-48 | A stored null string gives false although the name is present. |
| Commands.WrongTypeThrows | Assets/Scripts/BounceMechanic/UniversalCommandSystem.cs:47 | Asking for another type than the stored one throws: NullReferenceException when a null string is unboxed as a float or a bool, InvalidCastException otherwise. |
| Commands.LastSetWins | Assets/Scripts/BounceMechanic/BounceSystem.cs:23-29 | Running commands in order, the last "set" of a name decides its value. |
| Commands.UnsetNameUnchanged | Assets/Scripts/BounceMechanic/UniversalCommandSystem.cs:11-26 | A name that no command sets keeps its entry, or its absence. |
| Pieces.SetPosition | Assets/Scripts/Chessman.cs:34-38 | The coordinates become (x, y) and nothing else changes. |
| Pieces.SetBounceData | Assets/Scripts/Chessman.cs:22-26 | The statistics are replaced and nothing else changes. |
| Pieces.FreshStatsAlive | Assets/Scripts/Chessman.cs:67-70 | With fresh statistics current health is at most the maximum, and the piece is alive exactly when the maximum is positive. |
| Pieces.PossibleMoves | Assets/Scripts/Chessman.cs:45-48 | The base mask is a new 8x8 array with every cell false. |
| Pieces.Move | Assets/Scripts/Chessman.cs:50-65 | The ray stops exactly on an occupied square of the board. An empty square is marked; an occupied one is marked only for an enemy. Off the board nothing is written. No other cell changes. |
| BounceData.NewBounceData | Assets/Scripts/BounceMechanic/ChessmanBounceData.cs:8-13 | The strength and maximum health are the arguments, and current health starts at the maximum. |

## Left out

- Rendering and animation are not modelled: materials, highlights, spinners, `GetTileCenter`, `LerpBouncePosition` and the `ChessmanUI` overlay. They draw the board and change no rule state.
- Input is not modelled: the raycast of `UpdateSelection`, the mouse button and `Application.Quit`. A click is given as a square, or -1 when the cursor is off the board.
- Board.BoardManager.Update: requires the clicked square to be on the board or -1. A raycast point beyond the board's edge, which would make the C# mask lookup throw, is not modelled.
- Asynchrony is not modelled. Each `await` is taken to complete before the next step, so no click arrives while a capture resolves. The two bounces of a draw, joined by `Task.WhenAll`, run defender first, then attacker. Their squares are distinct, and a dead attacker is destroyed by the time the move goes on, so the selection then reads as null.
- Unity's null for destroyed objects is modelled as "not in the active set". This affects the selection test of `Update` and the draw branch above.
- `Instantiate` and `Destroy` are not modelled. Creation is a new id and a record in the piece map; destruction is leaving the active set.
- The active list is modelled as a set of ids, because each piece is added once and removed by identity.
- Health, strength and damage are integers, and so are the configured float values they come from (`Commands.Value` holds a float as an `int`). Float rounding is not modelled. Nor is a fractional configuration: a `winnerDamage` or `loserDamage` of 0.5 would give fractional health in the code. The `(int)` truncation that `CreateBounceData` applies to a fractional `maxHealth` or `maxStrength` is not modelled either. With whole configured values the code only draws whole numbers from `Random.Range(int, int)`, subtracts and compares, so the integers are exact.
- The language model transport (`LlmManager.Prompt`) is not modelled, nor its prompt text. The reply is a parameter. Stat creation by the language model is disabled in the source and is not modelled.
- Bounce.RunFrom: `\d` is modelled as the ASCII digits 0-9 only; .NET also matches other Unicode decimal digits.
- Bounce.RandomRange: for hi < lo, the model returns lo; Unity's behaviour there is not modelled.
- The move generators of the concrete pieces (King, Queen, Rook, Bishop, Knight, Pawn) are not part of this model. A selected piece's `PossibleMoves` mask is a parameter of `SelectChessman` and `Update`.
- The `BoardManager.Instance` singleton is not modelled. `Pieces.Move` takes the grid and the pieces as parameters.
- `Debug.Log`, `Debug.LogWarning`, `Debug.LogError` and `Debug.Assert` are not modelled: they only log.
- Board.BoardManager.constructor: requires that the combat variables, when set, hold floats. A stored value of another type would make the cast throw, and that path is not modelled.
- Bounce.CreateBounceData: requires that `maxHealth` and `maxStrength`, when set, hold floats (`StatsConfigured`). A stored value of another type would make the cast in `TryGetValue` throw, and that path is not modelled.
- Bounce.ResolveFight: requires that `winnerDamage` and `loserDamage`, when set, hold floats (`DamageConfigured`). A stored value of another type would make the cast in `TryGetValue` throw, and that path is not modelled.
- BoardSpec.Select, BoardSpec.Captures, BoardSpec.IsFree (and so `AdjacentFree`) and Pieces.Move: a square whose entry names a piece that has left the active set is read as occupied. In the code a destroyed Chessman compares equal to null from the next frame on, so the code reads that square as empty. Such an entry arises only through the en passant self-capture described under `BoardSpec.Valid` below: a double step arms (x, 2), the enemy king is captured, the new game keeps the armed square, and the white pawn on (x, 1) steps onto it and kills itself. After that the model lets a black piece moving onto (x, 2) fight the dead pawn instead of walking in, and never offers that square as a bounce square.
- The configuration read by the board is not modelled as changing. It is taken once from the store after initialisation, because nothing sets variables later.
- The initial `_allowedMoves` is null until the first selection. The model starts it as an all-false 8x8 mask; no move can use it before a selection.
- BoardSpec.Valid: does not include "every piece in the grid is active". On the armed en passant square the code kills whatever stands one row behind, and the model does not rule out that this is the moving piece itself. The Win block at the end of `MoveChessman` (Assets/Scripts/BoardManager.cs:277-282) would then place that killed piece on the target.
- A selection that stays set after a move that faults is kept as the code leaves it. The class invariant only asks that a live selection belong to the side to move.
