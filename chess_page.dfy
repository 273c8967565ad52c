/** The chess page of js/chess.js: an integer board evaluator over
    `pieceValues` and `positionBonuses`, the same alpha-beta search shape as
    the worker (but with that evaluator at the leaves and no negation at the
    root), and the choice of the status message. Scores are from Black's
    side, as in the worker. */
module ChessPage {
  import opened Options
  import opened Scores
  import opened ChessLib
  import Search
  import AiWorkerEval

  /** `pieceValues`: the king counts 20000. */
  function PieceValue(kind: PieceType): nat {
    match kind
    case Pawn => 100
    case Knight => 320
    case Bishop => 330
    case Rook => 500
    case Queen => 900
    case King => 20000
  }

  const PawnBonus: seq<int> :=
      [0,  0,  0,  0,  0,  0,  0,  0]
    + [50, 50, 50, 50, 50, 50, 50, 50]
    + [10, 10, 20, 30, 30, 20, 10, 10]
    + [5,  5, 10, 25, 25, 10,  5,  5]
    + [0,  0,  0, 20, 20,  0,  0,  0]
    + [5, -5,-10,  0,  0,-10, -5,  5]
    + [5, 10, 10,-20,-20, 10, 10,  5]
    + [0,  0,  0,  0,  0,  0,  0,  0]

  const KnightBonus: seq<int> :=
      [-50,-40,-30,-30,-30,-30,-40,-50]
    + [-40,-20,  0,  0,  0,  0,-20,-40]
    + [-30,  0, 10, 15, 15, 10,  0,-30]
    + [-30,  5, 15, 20, 20, 15,  5,-30]
    + [-30,  0, 15, 20, 20, 15,  0,-30]
    + [-30,  5, 10, 15, 15, 10,  5,-30]
    + [-40,-20,  0,  5,  5,  0,-20,-40]
    + [-50,-40,-30,-30,-30,-30,-40,-50]

  const BishopBonus: seq<int> :=
      [-20,-10,-10,-10,-10,-10,-10,-20]
    + [-10,  0,  0,  0,  0,  0,  0,-10]
    + [-10,  0,  5, 10, 10,  5,  0,-10]
    + [-10,  5,  5, 10, 10,  5,  5,-10]
    + [-10,  0, 10, 10, 10, 10,  0,-10]
    + [-10, 10, 10, 10, 10, 10, 10,-10]
    + [-10,  5,  0,  0,  0,  0,  5,-10]
    + [-20,-10,-10,-10,-10,-10,-10,-20]

  const RookBonus: seq<int> :=
      [0,  0,  0,  0,  0,  0,  0,  0]
    + [5, 10, 10, 10, 10, 10, 10,  5]
    + [-5,  0,  0,  0,  0,  0,  0, -5]
    + [-5,  0,  0,  0,  0,  0,  0, -5]
    + [-5,  0,  0,  0,  0,  0,  0, -5]
    + [-5,  0,  0,  0,  0,  0,  0, -5]
    + [-5,  0,  0,  0,  0,  0,  0, -5]
    + [0,  0,  0,  5,  5,  0,  0,  0]

  const QueenBonus: seq<int> :=
      [-20,-10,-10, -5, -5,-10,-10,-20]
    + [-10,  0,  0,  0,  0,  0,  0,-10]
    + [-10,  0,  5,  5,  5,  5,  0,-10]
    + [-5,  0,  5,  5,  5,  5,  0, -5]
    + [0,  0,  5,  5,  5,  5,  0, -5]
    + [-10,  5,  5,  5,  5,  5,  0,-10]
    + [-10,  0,  5,  0,  0,  0,  0,-10]
    + [-20,-10,-10, -5, -5,-10,-10,-20]

  const KingBonus: seq<int> :=
      [-30,-40,-40,-50,-50,-40,-40,-30]
    + [-30,-40,-40,-50,-50,-40,-40,-30]
    + [-30,-40,-40,-50,-50,-40,-40,-30]
    + [-30,-40,-40,-50,-50,-40,-40,-30]
    + [-20,-30,-30,-40,-40,-30,-30,-20]
    + [-10,-20,-20,-20,-20,-20,-20,-10]
    + [20, 20,  0,  0,  0,  0, 20, 20]
    + [20, 30, 10,  0,  0, 10, 30, 20]

  /** `positionBonuses[type][i][j]`, the tables stored row by row: the
      same entry for both colours. */
  function PositionBonus(kind: PieceType, i: Coord, j: Coord): int {
    var k := i * 8 + j;
    match kind
    case Pawn => PawnBonus[k]
    case Knight => KnightBonus[k]
    case Bishop => BishopBonus[k]
    case Rook => RookBonus[k]
    case Queen => QueenBonus[k]
    case King => KingBonus[k]
  }

  /** No bonus is larger than 50 either way, half the value of a pawn. */
  lemma PositionBonusBounds(kind: PieceType, i: Coord, j: Coord)
    ensures -50 <= PositionBonus(kind, i, j) <= 50
    ensures 2 * PositionBonus(kind, i, j) <= PieceValue(Pawn)
  {
    SharedWithWorker(kind, kind);
    AiWorkerEval.PawnTableShape();
    AiWorkerEval.KnightTableShape();
    AiWorkerEval.BishopTableShape();
    AiWorkerEval.KingMiddleTableShape();
    RookBonusShape();
    QueenBonusShape();
  }

  /** The two tables only the page has are of the same shape as the
      worker's. */
  lemma RookBonusShape()
    ensures AiWorkerEval.IsTable(RookBonus)
  {
  }

  lemma QueenBonusShape()
    ensures AiWorkerEval.IsTable(QueenBonus)
  {
  }

  /** The page and the worker share the pawn, knight, bishop and king
      tables entry for entry, and the page's values rank the pieces other
      than the king as the worker's do: a piece the worker values lower is
      valued lower here too. */
  lemma SharedWithWorker(a: PieceType, c: PieceType)
    ensures PawnBonus == AiWorkerEval.PawnTable && KnightBonus == AiWorkerEval.KnightTable
    ensures BishopBonus == AiWorkerEval.BishopTable && KingBonus == AiWorkerEval.KingMiddleTable
    ensures a != King && c != King && AiWorkerEval.PieceValue(a) < AiWorkerEval.PieceValue(c) ==> PieceValue(a) < PieceValue(c)
  {
  }

  /** One square's contribution to `evaluateBoard`: value plus bonus, added
      for a black piece and subtracted for a white one. */
  function SquareScore(b: Board, i: Coord, j: Coord): int {
    match b[i][j]
    case None => 0
    case Some(pc) =>
      var v := PieceValue(pc.kind) + PositionBonus(pc.kind, i, j);
      if pc.color == Black then v else -v
  }

  /** The first n squares of row i, summed in the loop's order. The page
      keeps these first-order sums rather than `Grid`'s sums over a
      function value: the page's search reaches `evaluateBoard` at every
      leaf, and a sum over a function value there makes the search's proof
      far more expensive. */
  function RowScore(b: Board, i: Coord, n: nat): int
    requires n <= 8
  {
    if n == 0 then 0 else RowScore(b, i, n - 1) + SquareScore(b, i, n - 1)
  }

  /** The first n rows. */
  function RowsScore(b: Board, n: nat): int
    requires n <= 8
  {
    if n == 0 then 0 else RowsScore(b, n - 1) + RowScore(b, n - 1, 8)
  }

  function BoardScore(b: Board): int {
    RowsScore(b, 8)
  }

  /** A square is worth at most a king plus the largest bonus, 20050,
      either way. */
  lemma SquareScoreBounded(b: Board, i: Coord, j: Coord)
    ensures -20050 <= SquareScore(b, i, j) <= 20050
  {
    if b[i][j].Some? {
      PositionBonusBounds(b[i][j].value.kind, i, j);
    }
  }

  /** So the page's score of any board lies within 64 times 20050 of 0. */
  lemma {:induction false} BoardScoreBounded(b: Board)
    ensures -64 * 20050 <= BoardScore(b) <= 64 * 20050
  {
    RowsScoreBounded(b, 8);
  }

  lemma {:induction false} RowsScoreBounded(b: Board, n: nat)
    requires n <= 8
    ensures -(n * 160400) <= RowsScore(b, n) <= n * 160400
  {
    if n > 0 {
      RowsScoreBounded(b, n - 1);
      RowScoreBounded(b, n - 1, 8);
    }
  }

  lemma {:induction false} RowScoreBounded(b: Board, i: Coord, n: nat)
    requires n <= 8
    ensures -(n * 20050) <= RowScore(b, i, n) <= n * 20050
  {
    if n > 0 {
      RowScoreBounded(b, i, n - 1);
      SquareScoreBounded(b, i, n - 1);
    }
  }

  /** `evaluateBoard`: the squares visited row by row, each read with
      `game.get` under its algebraic name. */
  method EvaluateBoard(b: Board) returns (score: int)
    ensures score == BoardScore(b)
  {
    score := 0;
    for i := 0 to 8
      invariant score == RowsScore(b, i)
    {
      for j := 0 to 8
        invariant score == RowsScore(b, i) + RowScore(b, i, j)
      {
        var piece := Get(b, Square(i, j));
        if piece.Some? {
          var pieceValue := PieceValue(piece.value.kind);
          var positionValue := PositionBonus(piece.value.kind, i, j);
          if piece.value.color == Black {
            score := score + (pieceValue + positionValue);
          } else {
            score := score - (pieceValue + positionValue);
          }
        }
      }
    }
  }

  /** The board with no piece on it. */
  const EmptyBoard: Board := seq(8, _ => seq(8, _ => None))

  /** An empty board evaluates to 0. */
  lemma EmptyBoardScoresZero()
    ensures BoardScore(EmptyBoard) == 0
  {
    EmptyRowsScoreZero(8);
  }

  lemma {:induction false} EmptyRowsScoreZero(n: nat)
    requires n <= 8
    ensures RowsScore(EmptyBoard, n) == 0
  {
    if n > 0 {
      EmptyRowsScoreZero(n - 1);
      EmptyRowScoreZero(n - 1, 8);
    }
  }

  lemma {:induction false} EmptyRowScoreZero(i: Coord, n: nat)
    requires n <= 8
    ensures RowScore(EmptyBoard, i, n) == 0
  {
    if n > 0 {
      EmptyRowScoreZero(i, n - 1);
      assert EmptyBoard[i][n - 1] == None;
    }
  }

  /** A piece is worth its value plus its bonus to Black and the negation
      to White, at the same, unmirrored, bonus entry; a king is worth 20000
      plus its bonus. */
  lemma SquareScoreOfPiece(b: Board, i: Coord, j: Coord, pc: Piece)
    requires b[i][j] == Some(pc)
    ensures SquareScore(b, i, j) == (if pc.color == Black then 1 else -1) * (PieceValue(pc.kind) + PositionBonus(pc.kind, i, j))
    ensures pc.kind == King ==> PieceValue(pc.kind) + PositionBonus(pc.kind, i, j) == 20000 + KingBonus[i * 8 + j]
  {
  }

  /** The board with the piece on (r, c), if any, given to the other side. */
  function FlipAt(b: Board, r: Coord, c: Coord): (f: Board)
    ensures forall i: Coord, j: Coord :: f[i][j] == (if i == r && j == c then FlipColor(b[i][j]) else b[i][j])
  {
    b[r := b[r][c := FlipColor(b[r][c])]]
  }

  /** Flipping the colour of one piece negates exactly that square's
      contribution and leaves every other square's as it was. */
  lemma FlipOnePiece(b: Board, r: Coord, c: Coord)
    ensures SquareScore(FlipAt(b, r, c), r, c) == -SquareScore(b, r, c)
    ensures BoardScore(FlipAt(b, r, c)) == BoardScore(b) - 2 * SquareScore(b, r, c)
  {
    FlipSquareScore(b, r, c);
    FlipRowsScore(b, r, c, 8);
  }

  lemma FlipSquareScore(b: Board, r: Coord, c: Coord)
    ensures SquareScore(FlipAt(b, r, c), r, c) == -SquareScore(b, r, c)
  {
    assert FlipAt(b, r, c)[r][c] == FlipColor(b[r][c]);
  }

  lemma {:induction false} FlipRowsScore(b: Board, r: Coord, c: Coord, n: nat)
    requires n <= 8
    ensures RowsScore(FlipAt(b, r, c), n) == RowsScore(b, n) - (if r < n then 2 * SquareScore(b, r, c) else 0)
  {
    if n > 0 {
      FlipRowsScore(b, r, c, n - 1);
      FlipRowScore(b, r, c, n - 1, 8);
    }
  }

  lemma {:induction false} FlipRowScore(b: Board, r: Coord, c: Coord, i: Coord, n: nat)
    requires n <= 8
    ensures RowScore(FlipAt(b, r, c), i, n) == RowScore(b, i, n) - (if i == r && c < n then 2 * SquareScore(b, r, c) else 0)
  {
    if n > 0 {
      FlipRowScore(b, r, c, i, n - 1);
      if i == r && n - 1 == c {
        FlipSquareScore(b, r, c);
      } else {
        assert FlipAt(b, r, c)[i][n - 1] == b[i][n - 1];
      }
    }
  }

  /** The search leaf: `evaluateBoard` on the position reached. */
  function BoardLeaf(p: Position): real {
    BoardScore(p.board) as real
  }

  /** `minimax`: `alphaBeta` of the worker with `evaluateBoard` at the
      leaves. */
  method Minimax(game: Game, depth: nat, alpha: Score, beta: Score, maximizingPlayer: bool) returns (v: Score)
    modifies game
    ensures game.pos == old(game.pos) && game.history == old(game.history)
    ensures v == Search.AlphaBeta(old(game.pos), depth, alpha, beta, maximizingPlayer, BoardLeaf)
    decreases depth, 1
  {
    ghost var leaf := BoardLeaf;
    if depth == 0 || game.IsGameOver() {
      var score := EvaluateBoard(game.pos.board);
      return Fin(score as real);
    }
    ghost var p := game.pos;
    ghost var h := game.history;
    var moves := game.Moves();
    if maximizingPlayer {
      ghost var target := Search.MaxLoop(p, depth, 0, NegInf, alpha, beta, leaf);
      var maxEval := NegInf;
      var a := alpha;
      var i := 0;
      while i < |moves|
        invariant i <= |moves| == |p.branches|
        invariant game.pos == p && game.history == h
        invariant Search.MaxLoop(p, depth, i, maxEval, a, beta, leaf) == target
        decreases |moves| - i
      {
        var evaluation := TryMove(game, depth, i, a, beta, false);
        Search.MaxLoopStep(p, depth, i, maxEval, a, beta, leaf, evaluation);
        maxEval := Max(maxEval, evaluation);
        a := Max(a, evaluation);
        if Le(beta, a) {
          break;
        }
        i := i + 1;
      }
      return maxEval;
    } else {
      ghost var target := Search.MinLoop(p, depth, 0, PosInf, alpha, beta, leaf);
      var minEval := PosInf;
      var b := beta;
      var i := 0;
      while i < |moves|
        invariant i <= |moves| == |p.branches|
        invariant game.pos == p && game.history == h
        invariant Search.MinLoop(p, depth, i, minEval, alpha, b, leaf) == target
        decreases |moves| - i
      {
        var evaluation := TryMove(game, depth, i, alpha, b, true);
        Search.MinLoopStep(p, depth, i, minEval, alpha, b, leaf, evaluation);
        minEval := Min(minEval, evaluation);
        b := Min(b, evaluation);
        if Le(b, alpha) {
          break;
        }
        i := i + 1;
      }
      return minEval;
    }
  }

  /** One pass of `minimax`'s loop body: play the i-th move, search the
      child one level down, and take the move back. */
  method TryMove(game: Game, depth: nat, i: nat, alpha: Score, beta: Score, maximizingPlayer: bool) returns (e: Score)
    requires 1 <= depth && i < |game.pos.branches|
    modifies game
    ensures game.pos == old(game.pos) && game.history == old(game.history)
    ensures e == Search.AlphaBeta(old(game.pos).branches[i].after, depth - 1, alpha, beta, maximizingPlayer, BoardLeaf)
    decreases depth, 0
  {
    game.Play(i);
    e := Minimax(game, depth - 1, alpha, beta, maximizingPlayer);
    var undone := game.Undo();
  }

  /** `getBestMove(depth = 3)`: no move when there is none, otherwise the
      first move whose child has the highest minimax value at depth - 1
      (the child is searched as the minimising side and its value is
      compared as it is). */
  method GetBestMove(game: Game, depth: nat := 3) returns (bestMove: Option<Move>)
    requires depth >= 1
    modifies game
    ensures game.pos == old(game.pos) && game.history == old(game.history)
    ensures bestMove.None? <==> |old(game.pos).branches| == 0
    ensures bestMove.Some? ==> exists k :: (
      && 0 <= k < |old(game.pos).branches|
      && old(game.pos).branches[k].move == bestMove.value
      && Search.FirstBest(old(game.pos), depth, false, BoardLeaf, k, |old(game.pos).branches|))
  {
    ghost var leaf := BoardLeaf;
    ghost var p := game.pos;
    ghost var h := game.history;
    var moves := game.Moves();
    bestMove := None;
    var bestValue := NegInf;
    ghost var bestIndex := 0;
    var i := 0;
    while i < |moves|
      invariant i <= |moves| == |p.branches|
      invariant game.pos == p && game.history == h
      invariant i == 0 ==> bestMove.None? && bestValue == NegInf
      invariant i > 0 ==> (
        && bestIndex < i
        && bestMove == Some(p.branches[bestIndex].move)
        && bestValue == Search.RootValue(p, depth, bestIndex, false, leaf)
        && Search.FirstBest(p, depth, false, leaf, bestIndex, i))
      decreases |moves| - i
    {
      game.Play(i);
      var value := Minimax(game, depth - 1, NegInf, PosInf, false);
      var undone := game.Undo();
      Search.RootStep(p, depth, i, value, false, leaf);
      if Lt(bestValue, value) {
        Search.FirstBestExtendNew(p, depth, false, leaf, bestIndex, i, i > 0, bestValue);
        bestValue := value;
        bestMove := Some(moves[i]);
        bestIndex := i;
      } else {
        Search.FirstBestExtendOld(p, depth, false, leaf, bestIndex, i);
      }
      i := i + 1;
    }
  }

  // ---------------------------------------------------------------------
  // Status message

  /** The answers `updateStatus` asks the library for, in its order. */
  datatype StatusFlags = StatusFlags(
    checkmate: bool, draw: bool, stalemate: bool, threefold: bool,
    insufficient: bool, check: bool, whiteToMove: bool)

  function FlagsOf(p: Position): StatusFlags {
    StatusFlags(InCheckmate(p), InDraw(p), InStalemate(p), p.threefoldRepetition,
                p.insufficientMaterial, p.inCheck, p.turn == White)
  }

  /** The message cascade of `updateStatus`: the first question answered
      yes picks the message, so each message is shown exactly when its own
      question is answered yes and every earlier one no, and the side to
      move picks between the two wordings of the checkmate, check and
      move messages. */
  function StatusMessage(f: StatusFlags): (r: string)
    ensures r in {"Checkmate! Black wins.", "Checkmate! You win!"} <==> f.checkmate
    ensures r == "Draw!" <==> !f.checkmate && f.draw
    ensures r == "Stalemate!" <==> !f.checkmate && !f.draw && f.stalemate
    ensures r == "Draw by repetition." <==> !f.checkmate && !f.draw && !f.stalemate && f.threefold
    ensures r == "Draw by insufficient material." <==>
      !f.checkmate && !f.draw && !f.stalemate && !f.threefold && f.insufficient
    ensures r in {"Check! Your move.", "Check! AI is thinking..."} <==>
      !f.checkmate && !f.draw && !f.stalemate && !f.threefold && !f.insufficient && f.check
    ensures r in {"Your move", "AI is thinking..."} <==>
      !f.checkmate && !f.draw && !f.stalemate && !f.threefold && !f.insufficient && !f.check
    ensures r in {"Checkmate! Black wins.", "Check! Your move.", "Your move"} <==>
      f.whiteToMove && (f.checkmate || (!f.draw && !f.stalemate && !f.threefold && !f.insufficient))
  {
    if f.checkmate then (if f.whiteToMove then "Checkmate! Black wins." else "Checkmate! You win!")
    else if f.draw then "Draw!"
    else if f.stalemate then "Stalemate!"
    else if f.threefold then "Draw by repetition."
    else if f.insufficient then "Draw by insufficient material."
    else if f.check then (if f.whiteToMove then "Check! Your move." else "Check! AI is thinking...")
    else if f.whiteToMove then "Your move" else "AI is thinking..."
  }

  /** With White mated the message is "Checkmate! Black wins.", with Black
      mated "Checkmate! You win!". */
  lemma CheckmateMessage(p: Position)
    requires InCheckmate(p)
    ensures StatusMessage(FlagsOf(p)) == (if p.turn == White then "Checkmate! Black wins." else "Checkmate! You win!")
  {
  }

  /** The library's `in_draw` already holds for stalemate, threefold
      repetition and insufficient material, so the three specific draw
      messages are never shown: every finished game shows a checkmate
      message or "Draw!", and every live one a move prompt, with "Check!"
      exactly when the side to move is in check. */
  lemma StatusOfPosition(p: Position)
    ensures GameOver(p) <==> StatusMessage(FlagsOf(p)) in {"Checkmate! Black wins.", "Checkmate! You win!", "Draw!"}
    ensures StatusMessage(FlagsOf(p)) !in {"Stalemate!", "Draw by repetition.", "Draw by insufficient material."}
    ensures !GameOver(p) ==> (StatusMessage(FlagsOf(p)) in {"Check! Your move.", "Check! AI is thinking..."} <==> p.inCheck)
    ensures !GameOver(p) ==> (StatusMessage(FlagsOf(p)) in {"Check! Your move.", "Your move"} <==> p.turn == White)
  {
  }
}
