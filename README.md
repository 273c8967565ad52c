# Chess AI of the portfolio site, modelled in Dafny

The site has two chess players, both built on the third-party rules library
chess.js. The worker loads version 0.12.1 (`js/ai-worker.js:56`); the page
uses a global `Chess` whose version its source does not show.

- **The web worker** (`js/ai-worker.js`). `getBestMove` scores every root
  move as `-alphaBeta(depth - 1, -Infinity, +Infinity, false)`. `alphaBeta`
  is a fail-soft minimax with the cutoff `if (beta <= alpha) break`. At its
  leaves it calls `evaluatePosition`, which adds up these terms:
  - a terminal shortcut;
  - material balance times 100;
  - mirrored piece-square tables;
  - an in-check term and a mobility term;
  - pawn structure;
  - king safety, from the pawn shield;
  - piece safety, from the attacked and defended squares of the move list.
- **The page** (`js/chess.js`). It runs the same search shape (`getBestMove`
  and `minimax`), with two differences: the root does not negate the child's
  value, and the default depth is 3. Its evaluator is an integer one,
  `evaluateBoard`: piece value plus an unmirrored position bonus, added for
  Black and subtracted for White. `updateStatus` picks the status message.

## The modules

- **`ChessLib`** (`chess_lib.dfy`): the rules library as both players use it.
  - A `Position` holds the board, the side to move, the library's flags, and
    the legal moves in the library's order. Each move comes with the position
    it leads to, so the game tree is an inductive datatype.
  - The terminal predicates (`in_checkmate`, `in_stalemate`, `in_draw`,
    `game_over`) are stated from those flags.
  - The shared `game` object is the class `Game`. `move` pushes the current
    position on a history stack and moves to the child; `undo` pops the stack.
- **`Scores`** (`scores.dfy`): JavaScript numbers as search scores, meaning
  finite values plus the two infinities.
- **`Search`** (`search.dfy`): the search as functions of the starting
  position and of a leaf evaluation.
  - `Minimax` is plain minimax.
  - `AlphaBeta`, `MaxLoop` and `MinLoop` follow the source loops step by
    step, break included.
  - What is proved: alpha-beta is fail-soft for any window; with the full
    window it equals minimax; alpha-beta and minimax values are finite;
    and what the root's strict `>` scan keeps.
- **`Grid`** (`grid.dfy`): sums over the 64 squares in loop order.
- **`AiWorkerEval`** (`ai_worker_eval.dfy`): `evaluatePosition` and its
  helpers.
  - Each loop of the source is a method proved equal to a function of the
    board.
  - Lemmas on those functions state the bounds, the mirroring and the
    colour symmetries.
- **`AiWorker`** (`ai_worker.dfy`): `alphaBeta` and `getBestMove` as methods
  on the `Game` object. Each leaves the game as it found it and returns the
  value the `Search` functions give. The loop body (move, recursive call,
  undo) is the helper method `TryMove`.
- **`ChessPage`** (`chess_page.dfy`): the same for `js/chess.js`
  (`evaluateBoard`, `minimax`, `getBestMove`), plus the status cascade of
  `updateStatus` as a pure function of the library's answers.

The worker's evaluator is computed over exact reals. The page's evaluator is
computed over integers.

Two observations are proved, not assumed:

- **The worker's root picks the least value for Black.** `alphaBeta`'s
  result is always from Black's side; it is not relative to the side to
  move. Because `getBestMove` negates it, the move the worker keeps is the
  first one whose child has the *least* minimax value
  (`Search.NegatedFirstBestIsFirstLeast`, and the `ensures` of
  `AiWorker.GetBestMove`). The page's root keeps the first child with the
  *greatest* value.
- **Three status messages are never shown.** The library's `in_draw`
  already covers stalemate, threefold repetition and insufficient material,
  so the messages for those three cases are unreachable
  (`ChessPage.StatusOfPosition`).

## Model

| member | source | states |
|---|---|---|
| `Scores.Max` | js/ai-worker.js:108-109 | `Math.max` on scores is an upper bound of both arguments and is one of them |
| `Scores.Min` | js/ai-worker.js:120-121 | `Math.min` on scores is a lower bound of both arguments and is one of them |
| `Scores.Neg` | js/ai-worker.js:82 | unary minus keeps a score finite exactly when it was finite |
| `Scores.NegReversesOrder` | js/ai-worker.js:82-85 | negation reverses `<=` and is its own inverse, so maximising `-v` minimises `v` |
| `Scores.LeTotal` | js/ai-worker.js:85 | any two scores are comparable |
| `Scores.LeTrans` | js/ai-worker.js:85 | `<=` on scores is transitive |
| `Scores.MaxAssoc` | js/ai-worker.js:109 | the running `Math.max` is associative, so `alpha = max(alpha, e)` tracks the maximum of `alpha` and of the values seen |
| `Scores.MinAssoc` | js/ai-worker.js:121 | the running `Math.min` is associative, so `beta = min(beta, e)` tracks the minimum of `beta` and of the values seen |
| `ChessLib.Opponent` | js/ai-worker.js:259 | the other colour is never the same colour |
| `ChessLib.LegalMoves` | js/ai-worker.js:99 | `game.moves()` lists exactly the moves of the position's branches, in the library's order |
| `ChessLib.Game.constructor` | js/ai-worker.js:61 | `new Chess(fen)` starts at the given position with an empty history |
| `ChessLib.Game.Moves` | js/ai-worker.js:99 | the move list is that of the current position |
| `ChessLib.NoMoveCases` | js/ai-worker.js:129-133 | `in_checkmate` holds exactly in check with no legal move, `in_stalemate` exactly out of check with no legal move, and the two never hold together |
| `ChessLib.DrawCases` | js/ai-worker.js:133 | `in_draw` holds exactly under the fifty-move rule, stalemate, insufficient material or threefold repetition |
| `ChessLib.GameOverCases` | js/ai-worker.js:95 | `game_over` holds exactly on one of the library's five terminal conditions, and always when there is no legal move |
| `ChessLib.NoMovesMeansOver` | js/ai-worker.js:95-99 | a position that is not over has at least one legal move to search |
| `ChessLib.Game.IsGameOver` | js/ai-worker.js:95 | `game.game_over()` answers `game_over` for the current position |
| `ChessLib.Game.Play` | js/ai-worker.js:81 | `game.move` pushes the current position and makes the move's result current |
| `ChessLib.Game.Undo` | js/ai-worker.js:83 | `game.undo` pops the last pushed position; on an empty history it changes nothing and reports failure |
| `ChessLib.Game.PlayThenUndo` | js/ai-worker.js:81-83 | a `move` followed by `undo` leaves the position and the history as they were |
| `Search.AlphaBetaFinite` | js/ai-worker.js:94-126 | `Search.AlphaBeta`, the model of `alphaBeta` as written, returns a finite number for every window: leaves are evaluated and each loop sees a legal move |
| `Search.MaxLoopBounds` | js/ai-worker.js:101-112 | `Search.MaxLoop`, the maximising loop with its `break`, never returns less than the running `maxEval`, and returns a finite number once a finite value was seen or a move is left |
| `Search.MinLoopBounds` | js/chess.js:137-147 | `Search.MinLoop`, the minimising loop with its `break`, never returns more than the running `minEval`, and returns a finite number once a finite value was seen or a move is left |
| `Search.MaxLoopStep` | js/chess.js:127-134 | one pass of the maximising loop: after the child's value e, the loop stops with `max(maxEval, e)` if `beta <= max(alpha, e)`, and otherwise goes on with both updated |
| `Search.MinLoopStep` | js/ai-worker.js:116-123 | one pass of the minimising loop: after the child's value e, the loop stops with `min(minEval, e)` if `min(beta, e) <= alpha`, and otherwise goes on with both updated |
| `Search.AlphaBetaFailSoft` | js/ai-worker.js:94-126 | for any window `alpha < beta`, a result at or below `alpha` bounds the minimax value from above, one at or above `beta` bounds it from below, and one strictly inside the window is exact |
| `Search.MaxLoopFailSoft` | js/ai-worker.js:101-112 | the maximising loop, cutoff included, is fail-soft for the maximum over the remaining children |
| `Search.MinLoopFailSoft` | js/ai-worker.js:113-124 | the minimising loop, cutoff included, is fail-soft for the minimum over the remaining children |
| `Search.AlphaBetaIsMinimax` | js/ai-worker.js:94-126 | with the window (-Infinity, +Infinity), alpha-beta returns the unpruned minimax value, so the cutoff never changes the result |
| `Search.MinimaxFinite` | js/ai-worker.js:95-97 | every minimax value is finite: each leaf is evaluated and each inner node has a legal move |
| `Search.RootStep` | js/ai-worker.js:80-83 | the root's score for a move is the negated, or for the page the plain, minimax value of its child at depth - 1, and is finite |
| `Search.FirstBestExtendNew` | js/ai-worker.js:85-88 | a strictly greater score makes the current move the first best among the moves scanned so far |
| `Search.FirstBestExtendOld` | js/ai-worker.js:85-88 | a score that is not greater keeps the first best move where it is |
| `Search.NegatedFirstBestIsFirstLeast` | js/ai-worker.js:73-92 | the first move with the highest negated score has the least child minimax value, and every earlier child's value is strictly greater |
| `AiWorker.AlphaBeta` | js/ai-worker.js:94-126 | `alphaBeta` restores the game, including on the `break`, and returns `Search.AlphaBeta` of the entry position with `evaluatePosition` at the leaves |
| `AiWorker.TryMove` | js/ai-worker.js:104-106 | one loop body, `move`, recursive `alphaBeta` and `undo`, leaves the game as it was and yields `Search.AlphaBeta` of the i-th child one level down |
| `AiWorker.GetBestMove` | js/ai-worker.js:73-92 | `getBestMove` restores the game and returns null exactly when there is no legal move; otherwise it returns the move of branch k, where k is the first move with the highest `-alphaBeta` score, that is the first child with the least minimax value |
| `AiWorkerEval.PawnTableShape` | js/ai-worker.js:10-19 | `pawnTable` has 64 entries, each between -50 and 50 |
| `AiWorkerEval.KnightTableShape` | js/ai-worker.js:21-30 | `knightTable` has 64 entries, each between -50 and 50 |
| `AiWorkerEval.BishopTableShape` | js/ai-worker.js:32-41 | `bishopTable` has 64 entries, each between -50 and 50 |
| `AiWorkerEval.KingMiddleTableShape` | js/ai-worker.js:43-52 | `kingMiddleTable` has 64 entries, each between -50 and 50 |
| `AiWorkerEval.PositionValueBounds` | js/ai-worker.js:298-313 | one piece's positional value lies between -25 and 25 |
| `AiWorkerEval.TableIndex` | js/ai-worker.js:299 | the table index is in 0..63: row `7 - row` for White and `row` for Black, column `col` |
| `AiWorkerEval.PiecePositionValue` | js/ai-worker.js:298-313 | rooks and queens get no positional value |
| `AiWorkerEval.PositionValueMirrored` | js/ai-worker.js:298-313 | a white piece at (r, c) reads the same entry, and gets the same value, as a black piece of the same kind at (7 - r, c) |
| `AiWorkerEval.EvaluatePieceSquares` | js/ai-worker.js:141-154 | the positional loop adds each black piece's table value and subtracts each white piece's |
| `AiWorkerEval.SideMaterialBounded` | js/ai-worker.js:1-8 | no piece is worth more than a queen's 9, so one side's material lies between 0 and 9 × 64 = 576 |
| `AiWorkerEval.MaterialBounded` | js/ai-worker.js:276-296 | the material balance lies between -576 and 576 |
| `AiWorkerEval.GetMaterialBalance` | js/ai-worker.js:276-296 | the balance is Black's value sum minus White's, with kings excluded |
| `AiWorkerEval.SideMaterialSwap` | js/ai-worker.js:276-296 | after every piece changes colour, one side's material is what the other side had |
| `AiWorkerEval.MaterialBalanceSwap` | js/ai-worker.js:276-296 | swapping the colour of every piece negates the material balance |
| `AiWorkerEval.PawnsOnFile` | js/ai-worker.js:178-184 | a file scanned over n rows holds at most n pawns of a colour |
| `AiWorkerEval.EvaluatePawnStructure` | js/ai-worker.js:170-203 | the loop computes the pawn-structure score, and that score lies in [-40, 40] |
| `AiWorkerEval.IsolatedPawnPenaltyUnreachable` | js/ai-worker.js:186-199 | the test `col > 0 or col < 7` (written with `||`) holds on every file, so the ±8 branches never fire and a file contributes one of -5, 0 or +5 |
| `AiWorkerEval.PawnStructureBounded` | js/ai-worker.js:174-200 | after n files the pawn-structure score lies in [-5n, 5n] |
| `AiWorkerEval.PawnsOnFileSwap` | js/ai-worker.js:178-184 | swapping colours swaps the white and black pawn counts of each file |
| `AiWorkerEval.PawnStructureSwap` | js/ai-worker.js:170-203 | swapping colours negates the pawn-structure score |
| `AiWorkerEval.CountPawnShield` | js/ai-worker.js:229-248 | the shield count is the number of own pawns on the three squares in front of the king, and it is at most 3 |
| `AiWorkerEval.KingSafetyAt` | js/ai-worker.js:212-222 | a white king contributes between -25 and 0, a black king between 0 and 25, and any other square 0 |
| `AiWorkerEval.EvaluateKingSafety` | js/ai-worker.js:205-227 | the loop adds up every king's pawn-shield and home-rank terms |
| `AiWorkerEval.KingSafetyAtMirror` | js/ai-worker.js:212-222 | a king on the board mirrored top to bottom with colours changed scores minus what the original king scored on the mirrored square: its shield pawns and home-row bonus mirror with it |
| `AiWorkerEval.KingSafetyMirror` | js/ai-worker.js:205-227 | the king-safety total of the mirrored board is minus that of the original |
| `AiWorkerEval.AttackedMeansDefended` | js/ai-worker.js:315-330 | a square `byColor` attacks also counts as defended by `byColor`, and so does a square holding a `byColor` piece with a listed move |
| `AiWorkerEval.EvaluatePieceSafety` | js/ai-worker.js:250-274 | the loop adds up each non-king piece's penalty: 40 times its value if attacked and undefended, 5 times if attacked and defended, counted against its own side |
| `AiWorkerEval.SafetyUnderMoverOnlyMoves` | js/ai-worker.js:257-268 | when every listed move is by the side to move, as `game.moves()` gives, the mover's pieces are never attacked and the other side's are never defended, so only the 40-times penalty can arise |
| `AiWorkerEval.SafetyAtSign` | js/ai-worker.js:262-268 | under such a move list, each square's safety term never favours the side that is not to move: it is at most 0 with White to move and at least 0 with Black to move |
| `AiWorkerEval.SafetyRowSign` | js/ai-worker.js:255-270 | under such a move list, a row's safety terms sum to a value that never favours the side that is not to move: it is at most 0 with White to move and at least 0 with Black to move |
| `AiWorkerEval.SafetyRowsSign` | js/ai-worker.js:254-271 | under such a move list, the first n rows' safety terms sum to a value that never favours the side that is not to move: it is at most 0 with White to move and at least 0 with Black to move |
| `AiWorkerEval.PieceSafetySign` | js/ai-worker.js:250-274 | when every listed move is by the side to move, the piece-safety total is at most 0 with White to move and at least 0 with Black to move |
| `AiWorkerEval.Evaluate` | js/ai-worker.js:128-168 | checkmate scores -10000 with Black to move and +10000 with White to move; any other finished game scores 0; a live position scores the sum of the seven terms |
| `AiWorkerEval.EvaluatePosition` | js/ai-worker.js:128-168 | `evaluatePosition` computes `Evaluate` of the position |
| `AiWorkerEval.EvaluateHeuristic` | js/ai-worker.js:137-167 | the non-terminal part adds material times 100, table values, the in-check term of -30 or +30 against the mover, mobility times 0.5 for the mover, pawn structure, king safety and piece safety |
| `ChessPage.SharedWithWorker` | js/chess.js:13-74 | the page's pawn, knight, bishop and king bonus tables are the worker's tables, and a piece the worker values lower (the king aside) is valued lower on the page too |
| `ChessPage.RookBonusShape` | js/chess.js:44-53 | the rook table has 64 entries, each between -50 and 50 |
| `ChessPage.QueenBonusShape` | js/chess.js:54-63 | the queen table has 64 entries, each between -50 and 50 |
| `ChessPage.PositionBonusBounds` | js/chess.js:86 | `positionBonuses[type][i][j]` lies between -50 and 50, at most half a pawn's value |
| `ChessPage.SquareScoreBounded` | js/chess.js:4-11 | one square's contribution is at most a king's 20000 plus the largest bonus 50, either way |
| `ChessPage.BoardScoreBounded` | js/chess.js:76-98 | `evaluateBoard` of any board lies between -64 × 20050 and 64 × 20050 |
| `ChessPage.EvaluateBoard` | js/chess.js:76-98 | `evaluateBoard` is the sum over occupied squares of the piece value plus its bonus, added for Black and subtracted for White |
| `ChessPage.SquareScoreOfPiece` | js/chess.js:84-92 | a piece's square contributes its value plus the unmirrored `[i][j]` bonus, with sign +1 for Black and -1 for White; a king counts 20000 plus its bonus |
| `ChessPage.EmptyBoardScoresZero` | js/chess.js:76-98 | a board with no piece evaluates to 0 |
| `ChessPage.EmptyRowsScoreZero` | js/chess.js:79-95 | on the empty board, the first n rows contribute 0 |
| `ChessPage.EmptyRowScoreZero` | js/chess.js:80-94 | on the empty board, the first n squares of a row contribute 0 |
| `ChessPage.FlipAt` | js/chess.js:88-92 | changing the colour of one piece changes that square and no other |
| `ChessPage.FlipSquareScore` | js/chess.js:88-92 | changing the colour of a piece negates its square's contribution |
| `ChessPage.FlipRowScore` | js/chess.js:80-94 | changing the colour of one piece changes a row's sum only in that piece's row, by twice its old contribution |
| `ChessPage.FlipRowsScore` | js/chess.js:79-95 | changing the colour of one piece changes the sum of the first n rows only once that row is included |
| `ChessPage.FlipOnePiece` | js/chess.js:84-92 | changing the colour of one piece negates exactly that square's contribution and leaves the rest of the score unchanged |
| `ChessPage.Minimax` | js/chess.js:119-149 | `minimax` restores the game, including on the `break`, and returns `Search.AlphaBeta` of the entry position with `evaluateBoard` at the leaves |
| `ChessPage.TryMove` | js/chess.js:129-131 | one loop body, `move`, recursive `minimax` and `undo`, leaves the game as it was and yields `Search.AlphaBeta` of the i-th child one level down |
| `ChessPage.GetBestMove` | js/chess.js:100-117 | `getBestMove` restores the game and returns null exactly when there is no move; otherwise it returns the first move whose child has the highest minimax value at depth - 1 |
| `ChessPage.StatusMessage` | js/chess.js:198-212 | each message appears exactly when its question is the first one answered yes (a checkmate message exactly on checkmate, "Draw!" exactly on a draw without checkmate, and so on down the cascade), and the White-addressed wording exactly when White is to move |
| `ChessPage.CheckmateMessage` | js/chess.js:198-199 | with White mated the message is "Checkmate! Black wins.", with Black mated "Checkmate! You win!" |
| `ChessPage.StatusOfPosition` | js/chess.js:198-212 | a finished game shows a checkmate message or "Draw!"; the stalemate, repetition and insufficient-material messages are never shown; a live game shows a "Check!" message exactly when the mover is in check, addressed to the player exactly when White is to move |

## Left out

- A `Position` is the library's game tree cut off below the positions a
  search reaches. The library lists moves even after a fifty-move or
  repetition draw, so its own tree is infinite. Every position the search
  visits, the evaluated leaves included, carries its full move list; only
  the positions one move beyond the leaves may carry fewer moves than the
  library would list, and no search looks at them.
- The page is taken to run on the same library, chess.js 0.12.1, as the
  worker. Its source does not pin a version, and `ChessPage.StatusOfPosition`
  depends on that version's `in_draw` covering stalemate, repetition and
  insufficient material.
- The rules library itself: move generation, check detection, the
  fifty-move counter, repetition detection and FEN parsing. A position
  carries the library's answers: the legal moves with their results, the
  in-check flag, the half-move clock and the insufficient-material and
  repetition flags.
- The worker's message plumbing, `new Chess(fen)` parsing, and the
  elapsed-time measurement (`Date.now`): input/output and the clock.
- The page's UI: the board widget, drag and drop, `onSnapEnd`, `makeAIMove`
  and its `setTimeout`, `initGame`, the restart listener, and the DOM write
  at the end of `updateStatus`. The status choice is modelled;
  `js/game.js`, `js/script.js` and `main.js` are not part of this model.
- Floating-point rounding: the worker's 0.3 and 0.5 table weights and its
  0.5 mobility weight are computed exactly over reals.
- Moves are named by their index in the list just generated. The page
  passes SAN strings and the worker verbose objects; both index the same
  list, and the string forms are not modelled.
- The 8×8 bonus tables of the page are stored row by row in 64-entry
  sequences; `PositionBonus(kind, i, j)` reads entry `8 * i + j`.
- `AiWorker.GetBestMove`: it requires depth ≥ 1. At depth 0 the source asks
  for `alphaBeta(-1, …)`, which never reaches its `depth === 0` test and ends
  only at a finished game.
- `ChessPage.GetBestMove`: it requires depth ≥ 1, for the same reason with
  `minimax(-1, …)`.
- `AiWorkerEval.EvaluatePosition`: the model splits two helper methods out
  of `evaluatePosition`: `EvaluateHeuristic`, the accumulation of the terms
  after the terminal tests, and `EvaluatePieceSquares`, its board loop over
  the piece-square tables. `getMaterialBalance`, `evaluatePawnStructure`,
  `evaluateKingSafety`, `countPawnShield` and `evaluatePieceSafety` are
  separate functions in the source as well.
- The move lists that `evaluatePosition` and `evaluatePieceSafety` ask the
  library for are the position's legal moves (`LegalMoves`). A move's piece
  is looked up on the board at the move's origin square, as `game.get` does.
