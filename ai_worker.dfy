/** The search of js/ai-worker.js over the shared `game` object: every
    move it tries is taken back before it goes on, so each call leaves the
    game as it found it, and each call computes what the search functions
    of module Search say, with `evaluatePosition` at the leaves. */
module AiWorker {
  import opened Options
  import opened Scores
  import opened ChessLib
  import Search
  import AiWorkerEval

  /** `alphaBeta`: evaluate at depth 0 or at the end of the game, otherwise
      try every legal move in the library's order, keeping the running best
      and narrowing the window, and stop as soon as `beta <= alpha`. */
  method AlphaBeta(game: Game, depth: nat, alpha: Score, beta: Score, isMaximizing: bool) returns (v: Score)
    modifies game
    ensures game.pos == old(game.pos) && game.history == old(game.history)
    ensures v == Search.AlphaBeta(old(game.pos), depth, alpha, beta, isMaximizing, AiWorkerEval.Evaluate)
    decreases depth, 1
  {
    ghost var leaf := AiWorkerEval.Evaluate;
    if depth == 0 || game.IsGameOver() {
      var score := AiWorkerEval.EvaluatePosition(game.pos);
      return Fin(score);
    }
    ghost var p := game.pos;
    ghost var h := game.history;
    var moves := game.Moves();
    if isMaximizing {
      ghost var target := Search.MaxLoop(p, depth, 0, NegInf, alpha, beta, leaf);
      var maxEval := NegInf;
      var a := alpha;
      var i := 0;
      while i < |moves|
        invariant i <= |moves| == |p.branches|
        invariant game.pos == p && game.history == h
        invariant Search.MaxLoop(p, depth, i, maxEval, a, beta, leaf) == target
        decreases |moves| - i
      {
        var evaluation := TryMove(game, depth, i, a, beta, false);
        Search.MaxLoopStep(p, depth, i, maxEval, a, beta, leaf, evaluation);
        maxEval := Max(maxEval, evaluation);
        a := Max(a, evaluation);
        if Le(beta, a) {
          break;
        }
        i := i + 1;
      }
      return maxEval;
    } else {
      ghost var target := Search.MinLoop(p, depth, 0, PosInf, alpha, beta, leaf);
      var minEval := PosInf;
      var b := beta;
      var i := 0;
      while i < |moves|
        invariant i <= |moves| == |p.branches|
        invariant game.pos == p && game.history == h
        invariant Search.MinLoop(p, depth, i, minEval, alpha, b, leaf) == target
        decreases |moves| - i
      {
        var evaluation := TryMove(game, depth, i, alpha, b, true);
        Search.MinLoopStep(p, depth, i, minEval, alpha, b, leaf, evaluation);
        minEval := Min(minEval, evaluation);
        b := Min(b, evaluation);
        if Le(b, alpha) {
          break;
        }
        i := i + 1;
      }
      return minEval;
    }
  }

  /** One pass of `alphaBeta`'s loop body: play the i-th move, search the
      child one level down, and take the move back. */
  method TryMove(game: Game, depth: nat, i: nat, alpha: Score, beta: Score, isMaximizing: bool) returns (e: Score)
    requires 1 <= depth && i < |game.pos.branches|
    modifies game
    ensures game.pos == old(game.pos) && game.history == old(game.history)
    ensures e == Search.AlphaBeta(old(game.pos).branches[i].after, depth - 1, alpha, beta, isMaximizing, AiWorkerEval.Evaluate)
    decreases depth, 0
  {
    game.Play(i);
    e := AlphaBeta(game, depth - 1, alpha, beta, isMaximizing);
    var undone := game.Undo();
  }

  /** `getBestMove`: no move when the side to move has none; otherwise the
      first legal move with the highest score `-alphaBeta(depth - 1, -Infinity,
      +Infinity, false)`. Because that negates the child's minimax value, the
      move kept is the first whose child has the least minimax value. */
  method GetBestMove(game: Game, depth: nat) returns (bestMove: Option<Move>)
    requires depth >= 1
    modifies game
    ensures game.pos == old(game.pos) && game.history == old(game.history)
    ensures bestMove.None? <==> |old(game.pos).branches| == 0
    ensures bestMove.Some? ==> exists k :: (
      && 0 <= k < |old(game.pos).branches|
      && old(game.pos).branches[k].move == bestMove.value
      && Search.FirstBest(old(game.pos), depth, true, AiWorkerEval.Evaluate, k, |old(game.pos).branches|)
      && (forall j :: 0 <= j < |old(game.pos).branches| ==>
            Le(Search.Minimax(old(game.pos).branches[k].after, depth - 1, false, AiWorkerEval.Evaluate),
               Search.Minimax(old(game.pos).branches[j].after, depth - 1, false, AiWorkerEval.Evaluate)))
      && (forall j :: 0 <= j < k ==>
            Lt(Search.Minimax(old(game.pos).branches[k].after, depth - 1, false, AiWorkerEval.Evaluate),
               Search.Minimax(old(game.pos).branches[j].after, depth - 1, false, AiWorkerEval.Evaluate))))
  {
    ghost var leaf := AiWorkerEval.Evaluate;
    ghost var p := game.pos;
    ghost var h := game.history;
    var possibleMoves := game.Moves();
    if |possibleMoves| == 0 {
      return None;
    }
    bestMove := None;
    var bestScore := NegInf;
    ghost var bestIndex := 0;
    var i := 0;
    while i < |possibleMoves|
      invariant i <= |possibleMoves| == |p.branches|
      invariant game.pos == p && game.history == h
      invariant i == 0 ==> bestMove.None? && bestScore == NegInf
      invariant i > 0 ==> (
        && bestIndex < i
        && bestMove == Some(p.branches[bestIndex].move)
        && bestScore == Search.RootValue(p, depth, bestIndex, true, leaf)
        && Search.FirstBest(p, depth, true, leaf, bestIndex, i))
      decreases |possibleMoves| - i
    {
      game.Play(i);
      var childValue := AlphaBeta(game, depth - 1, NegInf, PosInf, false);
      var undone := game.Undo();
      var score := Neg(childValue);
      Search.RootStep(p, depth, i, childValue, true, leaf);
      if Lt(bestScore, score) {
        Search.FirstBestExtendNew(p, depth, true, leaf, bestIndex, i, i > 0, bestScore);
        bestScore := score;
        bestMove := Some(possibleMoves[i]);
        bestIndex := i;
      } else {
        Search.FirstBestExtendOld(p, depth, true, leaf, bestIndex, i);
      }
      i := i + 1;
    }
    Search.NegatedFirstBestIsFirstLeast(p, depth, leaf, bestIndex);
  }
}
