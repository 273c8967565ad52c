/** The game-tree search both pages run, as functions of the position the
    search starts from and of the leaf evaluation: `Minimax` is the plain
    minimax value; `AlphaBeta`, `MaxLoop` and `MinLoop` follow the source's
    `alphaBeta`/`minimax` loops step by step, including the cutoff
    `if (beta <= alpha) break`. The main theorem is that the full window
    (-Infinity, +Infinity) makes the pruned search return the minimax value. */
module Search {
  import opened Scores
  import opened ChessLib

  /** Minimax without pruning: leaves at depth 0 or at the end of the game,
      the maximum of the children at a maximising node, the minimum at a
      minimising one (with the loops' initial values -Infinity and
      +Infinity when there is no child). */
  function Minimax(p: Position, depth: nat, maximizing: bool, leaf: Position -> real): Score
    decreases depth, 1
  {
    if depth == 0 || GameOver(p) then Fin(leaf(p))
    else if maximizing then BestOf(p, depth, 0, leaf)
    else WorstOf(p, depth, 0, leaf)
  }

  /** The largest minimax value among the children from the i-th on. */
  function BestOf(p: Position, depth: nat, i: nat, leaf: Position -> real): Score
    requires 1 <= depth && i <= |p.branches|
    decreases depth, 0, |p.branches| - i
  {
    if i == |p.branches| then NegInf
    else Max(Minimax(p.branches[i].after, depth - 1, false, leaf), BestOf(p, depth, i + 1, leaf))
  }

  /** The smallest minimax value among the children from the i-th on. */
  function WorstOf(p: Position, depth: nat, i: nat, leaf: Position -> real): Score
    requires 1 <= depth && i <= |p.branches|
    decreases depth, 0, |p.branches| - i
  {
    if i == |p.branches| then PosInf
    else Min(Minimax(p.branches[i].after, depth - 1, true, leaf), WorstOf(p, depth, i + 1, leaf))
  }

  /** The fail-soft alpha-beta search as written. */
  function AlphaBeta(p: Position, depth: nat, alpha: Score, beta: Score, maximizing: bool, leaf: Position -> real): Score
    decreases depth, 1
  {
    if depth == 0 || GameOver(p) then Fin(leaf(p))
    else if maximizing then MaxLoop(p, depth, 0, NegInf, alpha, beta, leaf)
    else MinLoop(p, depth, 0, PosInf, alpha, beta, leaf)
  }

  /** The maximising loop from its i-th iteration on, with the running
      `maxEval` and `alpha`. */
  function MaxLoop(p: Position, depth: nat, i: nat, maxEval: Score, alpha: Score, beta: Score, leaf: Position -> real): Score
    requires 1 <= depth && i <= |p.branches|
    decreases depth, 0, |p.branches| - i
  {
    if i == |p.branches| then maxEval
    else
      var e := AlphaBeta(p.branches[i].after, depth - 1, alpha, beta, false, leaf);
      var maxEval', alpha' := Max(maxEval, e), Max(alpha, e);
      if Le(beta, alpha') then maxEval'
      else MaxLoop(p, depth, i + 1, maxEval', alpha', beta, leaf)
  }

  /** The minimising loop from its i-th iteration on, with the running
      `minEval` and `beta`. */
  function MinLoop(p: Position, depth: nat, i: nat, minEval: Score, alpha: Score, beta: Score, leaf: Position -> real): Score
    requires 1 <= depth && i <= |p.branches|
    decreases depth, 0, |p.branches| - i
  {
    if i == |p.branches| then minEval
    else
      var e := AlphaBeta(p.branches[i].after, depth - 1, alpha, beta, true, leaf);
      var minEval', beta' := Min(minEval, e), Min(beta, e);
      if Le(beta', alpha) then minEval'
      else MinLoop(p, depth, i + 1, minEval', alpha, beta', leaf)
  }

  /** Whatever the window, alpha-beta returns a finite number: a leaf is
      evaluated, and a position that is not over has a legal move, so each
      loop sees at least one finite value. */
  lemma {:induction false} AlphaBetaFinite(p: Position, depth: nat, alpha: Score, beta: Score, maximizing: bool, leaf: Position -> real)
    ensures AlphaBeta(p, depth, alpha, beta, maximizing, leaf).Fin?
    decreases depth, 1
  {
    if depth == 0 || GameOver(p) {
    } else {
      NoMovesMeansOver(p);
      if maximizing {
        MaxLoopBounds(p, depth, 0, NegInf, alpha, beta, leaf);
      } else {
        MinLoopBounds(p, depth, 0, PosInf, alpha, beta, leaf);
      }
    }
  }

  /** The maximising loop never returns less than the running `maxEval`,
      and returns a finite number once a finite value has been seen or a
      child is left to search. */
  lemma {:induction false} MaxLoopBounds(p: Position, depth: nat, i: nat, maxEval: Score, alpha: Score, beta: Score, leaf: Position -> real)
    requires 1 <= depth && i <= |p.branches|
    ensures Le(maxEval, MaxLoop(p, depth, i, maxEval, alpha, beta, leaf))
    ensures !maxEval.PosInf? && (maxEval.Fin? || i < |p.branches|) ==> MaxLoop(p, depth, i, maxEval, alpha, beta, leaf).Fin?
    decreases depth, 0, |p.branches| - i
  {
    if i < |p.branches| {
      var e := AlphaBeta(p.branches[i].after, depth - 1, alpha, beta, false, leaf);
      AlphaBetaFinite(p.branches[i].after, depth - 1, alpha, beta, false, leaf);
      var maxEval', alpha' := Max(maxEval, e), Max(alpha, e);
      if !Le(beta, alpha') {
        MaxLoopBounds(p, depth, i + 1, maxEval', alpha', beta, leaf);
        LeTrans(maxEval, maxEval', MaxLoop(p, depth, i + 1, maxEval', alpha', beta, leaf));
      }
    }
  }

  /** The minimising loop never returns more than the running `minEval`,
      and returns a finite number once a finite value has been seen or a
      child is left to search. */
  lemma {:induction false} MinLoopBounds(p: Position, depth: nat, i: nat, minEval: Score, alpha: Score, beta: Score, leaf: Position -> real)
    requires 1 <= depth && i <= |p.branches|
    ensures Le(MinLoop(p, depth, i, minEval, alpha, beta, leaf), minEval)
    ensures !minEval.NegInf? && (minEval.Fin? || i < |p.branches|) ==> MinLoop(p, depth, i, minEval, alpha, beta, leaf).Fin?
    decreases depth, 0, |p.branches| - i
  {
    if i < |p.branches| {
      var e := AlphaBeta(p.branches[i].after, depth - 1, alpha, beta, true, leaf);
      AlphaBetaFinite(p.branches[i].after, depth - 1, alpha, beta, true, leaf);
      var minEval', beta' := Min(minEval, e), Min(beta, e);
      if !Le(beta', alpha) {
        MinLoopBounds(p, depth, i + 1, minEval', alpha, beta', leaf);
        LeTrans(MinLoop(p, depth, i + 1, minEval', alpha, beta', leaf), minEval', minEval);
      }
    }
  }

  /** One iteration of the maximising loop, with the child's value e. */
  lemma MaxLoopStep(p: Position, depth: nat, i: nat, maxEval: Score, alpha: Score, beta: Score, leaf: Position -> real, e: Score)
    requires 1 <= depth && i < |p.branches|
    requires e == AlphaBeta(p.branches[i].after, depth - 1, alpha, beta, false, leaf)
    ensures MaxLoop(p, depth, i, maxEval, alpha, beta, leaf) ==
      if Le(beta, Max(alpha, e)) then Max(maxEval, e)
      else MaxLoop(p, depth, i + 1, Max(maxEval, e), Max(alpha, e), beta, leaf)
  {
  }

  /** One iteration of the minimising loop, with the child's value e. */
  lemma MinLoopStep(p: Position, depth: nat, i: nat, minEval: Score, alpha: Score, beta: Score, leaf: Position -> real, e: Score)
    requires 1 <= depth && i < |p.branches|
    requires e == AlphaBeta(p.branches[i].after, depth - 1, alpha, beta, true, leaf)
    ensures MinLoop(p, depth, i, minEval, alpha, beta, leaf) ==
      if Le(Min(beta, e), alpha) then Min(minEval, e)
      else MinLoop(p, depth, i + 1, Min(minEval, e), alpha, Min(beta, e), leaf)
  {
  }

  /** What a fail-soft search promises about its result v relative to the
      true value m for the window (alpha, beta): a result at or below alpha
      is an upper bound, one at or above beta a lower bound, and one strictly
      inside the window is exact. */
  ghost predicate FailSoft(v: Score, m: Score, alpha: Score, beta: Score) {
    && (Le(v, alpha) ==> Le(m, v))
    && (Le(beta, v) ==> Le(v, m))
    && (Lt(alpha, v) && Lt(v, beta) ==> m == v)
  }

  /** Alpha-beta with any non-empty window is fail-soft with respect to
      minimax. */
  lemma {:induction false} AlphaBetaFailSoft(p: Position, depth: nat, alpha: Score, beta: Score, maximizing: bool, leaf: Position -> real)
    requires Lt(alpha, beta)
    ensures FailSoft(AlphaBeta(p, depth, alpha, beta, maximizing, leaf), Minimax(p, depth, maximizing, leaf), alpha, beta)
    decreases depth, 1
  {
    if depth == 0 || GameOver(p) {
    } else if maximizing {
      MaxLoopFailSoft(p, depth, 0, NegInf, alpha, alpha, beta, NegInf, leaf);
    } else {
      MinLoopFailSoft(p, depth, 0, PosInf, alpha, beta, beta, PosInf, leaf);
    }
  }

  /** The maximising loop, entered with the running maximum `maxEval` of
      the searched values, `a == max(alpha, maxEval)` still below beta, and
      `done` the true maximum of the children already searched, is
      fail-soft for the maximum over all children. */
  lemma {:induction false} MaxLoopFailSoft(p: Position, depth: nat, i: nat, maxEval: Score, a: Score, alpha: Score, beta: Score, done: Score, leaf: Position -> real)
    requires 1 <= depth && i <= |p.branches|
    requires a == Max(alpha, maxEval) && Lt(a, beta)
    requires FailSoft(maxEval, done, alpha, beta)
    ensures FailSoft(MaxLoop(p, depth, i, maxEval, a, beta, leaf), Max(done, BestOf(p, depth, i, leaf)), alpha, beta)
    decreases depth, 0, |p.branches| - i
  {
    if i < |p.branches| {
      var child := p.branches[i].after;
      var e := AlphaBeta(child, depth - 1, a, beta, false, leaf);
      var m := Minimax(child, depth - 1, false, leaf);
      var rest := BestOf(p, depth, i + 1, leaf);
      AlphaBetaFailSoft(child, depth - 1, a, beta, false, leaf);
      MaxAssoc(done, m, rest);
      var maxEval', a' := Max(maxEval, e), Max(a, e);
      if Le(beta, a') {
        assert Le(beta, e);
        assert maxEval' == e;
        assert Le(e, Max(done, m));
      } else {
        assert FailSoft(maxEval', Max(done, m), alpha, beta);
        MaxAssoc(alpha, maxEval, e);
        MaxLoopFailSoft(p, depth, i + 1, maxEval', a', alpha, beta, Max(done, m), leaf);
      }
    }
  }

  /** The minimising loop, symmetric to `MaxLoopFailSoft`. */
  lemma {:induction false} MinLoopFailSoft(p: Position, depth: nat, i: nat, minEval: Score, alpha: Score, b: Score, beta: Score, done: Score, leaf: Position -> real)
    requires 1 <= depth && i <= |p.branches|
    requires b == Min(beta, minEval) && Lt(alpha, b)
    requires FailSoft(minEval, done, alpha, beta)
    ensures FailSoft(MinLoop(p, depth, i, minEval, alpha, b, leaf), Min(done, WorstOf(p, depth, i, leaf)), alpha, beta)
    decreases depth, 0, |p.branches| - i
  {
    if i < |p.branches| {
      var child := p.branches[i].after;
      var e := AlphaBeta(child, depth - 1, alpha, b, true, leaf);
      var m := Minimax(child, depth - 1, true, leaf);
      var rest := WorstOf(p, depth, i + 1, leaf);
      AlphaBetaFailSoft(child, depth - 1, alpha, b, true, leaf);
      MinAssoc(done, m, rest);
      var minEval', b' := Min(minEval, e), Min(b, e);
      if Le(b', alpha) {
        assert Le(e, alpha);
        assert minEval' == e;
        assert Le(Min(done, m), e);
      } else {
        assert FailSoft(minEval', Min(done, m), alpha, beta);
        MinAssoc(beta, minEval, e);
        MinLoopFailSoft(p, depth, i + 1, minEval', alpha, b', beta, Min(done, m), leaf);
      }
    }
  }

  /** Called with the window (-Infinity, +Infinity), alpha-beta returns the
      minimax value: the cutoff never changes the result. */
  lemma AlphaBetaIsMinimax(p: Position, depth: nat, maximizing: bool, leaf: Position -> real)
    ensures AlphaBeta(p, depth, NegInf, PosInf, maximizing, leaf) == Minimax(p, depth, maximizing, leaf)
  {
    AlphaBetaFailSoft(p, depth, NegInf, PosInf, maximizing, leaf);
  }

  /** Minimax values are finite: a node that is not a leaf has a legal move,
      since a position without one is over. */
  lemma {:induction false} MinimaxFinite(p: Position, depth: nat, maximizing: bool, leaf: Position -> real)
    ensures Minimax(p, depth, maximizing, leaf).Fin?
    decreases depth, 1
  {
    if depth == 0 || GameOver(p) {
    } else {
      NoMovesMeansOver(p);
      if maximizing {
        BestOfFinite(p, depth, 0, leaf);
      } else {
        WorstOfFinite(p, depth, 0, leaf);
      }
    }
  }

  lemma {:induction false} BestOfFinite(p: Position, depth: nat, i: nat, leaf: Position -> real)
    requires 1 <= depth && i < |p.branches|
    ensures BestOf(p, depth, i, leaf).Fin?
    decreases depth, 0, |p.branches| - i
  {
    MinimaxFinite(p.branches[i].after, depth - 1, false, leaf);
    if i + 1 < |p.branches| {
      BestOfFinite(p, depth, i + 1, leaf);
    }
  }

  lemma {:induction false} WorstOfFinite(p: Position, depth: nat, i: nat, leaf: Position -> real)
    requires 1 <= depth && i < |p.branches|
    ensures WorstOf(p, depth, i, leaf).Fin?
    decreases depth, 0, |p.branches| - i
  {
    MinimaxFinite(p.branches[i].after, depth - 1, true, leaf);
    if i + 1 < |p.branches| {
      WorstOfFinite(p, depth, i + 1, leaf);
    }
  }

  /** The score the root loop gives its k-th move: the minimax value of the
      minimising child at depth - 1, negated when `negate` holds. */
  function RootValue(p: Position, depth: nat, k: nat, negate: bool, leaf: Position -> real): Score
    requires 1 <= depth && k < |p.branches|
  {
    var v := Minimax(p.branches[k].after, depth - 1, false, leaf);
    if negate then Neg(v) else v
  }

  /** Among the first n root moves, the k-th has the highest score and every
      earlier one a strictly lower score: what a scan that replaces its
      best move only on a strictly greater score keeps. */
  ghost predicate FirstBest(p: Position, depth: nat, negate: bool, leaf: Position -> real, k: nat, n: nat)
    requires 1 <= depth && k < n <= |p.branches|
  {
    && (forall j :: 0 <= j < n ==> Le(RootValue(p, depth, j, negate, leaf), RootValue(p, depth, k, negate, leaf)))
    && (forall j :: 0 <= j < k ==> Lt(RootValue(p, depth, j, negate, leaf), RootValue(p, depth, k, negate, leaf)))
  }

  /** The root's score for the i-th move: by the full-window theorem the
      child's alpha-beta value is its minimax value, which is finite. */
  lemma RootStep(p: Position, depth: nat, i: nat, childValue: Score, negate: bool, leaf: Position -> real)
    requires 1 <= depth && i < |p.branches|
    requires childValue == AlphaBeta(p.branches[i].after, depth - 1, NegInf, PosInf, false, leaf)
    ensures (if negate then Neg(childValue) else childValue) == RootValue(p, depth, i, negate, leaf)
    ensures RootValue(p, depth, i, negate, leaf).Fin?
  {
    AlphaBetaIsMinimax(p.branches[i].after, depth - 1, false, leaf);
    MinimaxFinite(p.branches[i].after, depth - 1, false, leaf);
  }

  /** A strictly greater score at move i makes move i the new first best;
      before the first move the best score is -Infinity. */
  lemma FirstBestExtendNew(p: Position, depth: nat, negate: bool, leaf: Position -> real, k: nat, i: nat, started: bool, bestScore: Score)
    requires 1 <= depth && i < |p.branches|
    requires started ==> k < i && bestScore == RootValue(p, depth, k, negate, leaf) && FirstBest(p, depth, negate, leaf, k, i)
    requires !started ==> i == 0
    requires Lt(bestScore, RootValue(p, depth, i, negate, leaf))
    ensures FirstBest(p, depth, negate, leaf, i, i + 1)
  {
    var vi := RootValue(p, depth, i, negate, leaf);
    forall j | 0 <= j < i
      ensures Lt(RootValue(p, depth, j, negate, leaf), vi)
    {
      var vj := RootValue(p, depth, j, negate, leaf);
      assert Le(vj, bestScore);
      LeTotal(vj, vi);
      if Le(vi, vj) {
        LeTrans(vi, vj, bestScore);
      }
    }
    LeTotal(vi, vi);
  }

  /** A score not above the best keeps the best move where it is. */
  lemma FirstBestExtendOld(p: Position, depth: nat, negate: bool, leaf: Position -> real, k: nat, i: nat)
    requires 1 <= depth && k < i < |p.branches|
    requires FirstBest(p, depth, negate, leaf, k, i)
    requires !Lt(RootValue(p, depth, k, negate, leaf), RootValue(p, depth, i, negate, leaf))
    ensures FirstBest(p, depth, negate, leaf, k, i + 1)
  {
  }

  /** A negated root score is highest exactly where the child's minimax value
      is lowest: the k-th move a negating root keeps is the first whose
      child has the least minimax value. */
  lemma NegatedFirstBestIsFirstLeast(p: Position, depth: nat, leaf: Position -> real, k: nat)
    requires 1 <= depth && k < |p.branches|
    requires FirstBest(p, depth, true, leaf, k, |p.branches|)
    ensures forall j :: 0 <= j < |p.branches| ==>
      Le(Minimax(p.branches[k].after, depth - 1, false, leaf), Minimax(p.branches[j].after, depth - 1, false, leaf))
    ensures forall j :: 0 <= j < k ==>
      Lt(Minimax(p.branches[k].after, depth - 1, false, leaf), Minimax(p.branches[j].after, depth - 1, false, leaf))
  {
    var mk := Minimax(p.branches[k].after, depth - 1, false, leaf);
    forall j | 0 <= j < |p.branches|
      ensures Le(mk, Minimax(p.branches[j].after, depth - 1, false, leaf))
      ensures j < k ==> Lt(mk, Minimax(p.branches[j].after, depth - 1, false, leaf))
    {
      var mj := Minimax(p.branches[j].after, depth - 1, false, leaf);
      assert Le(RootValue(p, depth, j, true, leaf), RootValue(p, depth, k, true, leaf));
      NegReversesOrder(mj, mk);
      NegReversesOrder(mk, mj);
    }
  }
}
