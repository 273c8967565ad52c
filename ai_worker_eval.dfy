/** The static evaluator of js/ai-worker.js. Scores are from Black's side:
    a higher score is better for Black. Values are exact reals: the 0.3 and
    0.5 weights are exact here, not IEEE doubles. The library's answers the
    evaluator consults (the flags, the move list used for mobility and for
    attacked and defended squares) come from the position. */
module AiWorkerEval {
  import opened Options
  import opened ChessLib
  import opened Grid

  /** `pieceValues`. */
  function PieceValue(kind: PieceType): nat {
    match kind
    case Pawn => 1
    case Knight => 3
    case Bishop => 3
    case Rook => 5
    case Queen => 9
    case King => 0
  }

  const PawnTable: seq<int> :=
      [0,  0,  0,  0,  0,  0,  0,  0]
    + [50, 50, 50, 50, 50, 50, 50, 50]
    + [10, 10, 20, 30, 30, 20, 10, 10]
    + [5,  5, 10, 25, 25, 10,  5,  5]
    + [0,  0,  0, 20, 20,  0,  0,  0]
    + [5, -5,-10,  0,  0,-10, -5,  5]
    + [5, 10, 10,-20,-20, 10, 10,  5]
    + [0,  0,  0,  0,  0,  0,  0,  0]

  const KnightTable: seq<int> :=
      [-50,-40,-30,-30,-30,-30,-40,-50]
    + [-40,-20,  0,  0,  0,  0,-20,-40]
    + [-30,  0, 10, 15, 15, 10,  0,-30]
    + [-30,  5, 15, 20, 20, 15,  5,-30]
    + [-30,  0, 15, 20, 20, 15,  0,-30]
    + [-30,  5, 10, 15, 15, 10,  5,-30]
    + [-40,-20,  0,  5,  5,  0,-20,-40]
    + [-50,-40,-30,-30,-30,-30,-40,-50]

  const BishopTable: seq<int> :=
      [-20,-10,-10,-10,-10,-10,-10,-20]
    + [-10,  0,  0,  0,  0,  0,  0,-10]
    + [-10,  0,  5, 10, 10,  5,  0,-10]
    + [-10,  5,  5, 10, 10,  5,  5,-10]
    + [-10,  0, 10, 10, 10, 10,  0,-10]
    + [-10, 10, 10, 10, 10, 10, 10,-10]
    + [-10,  5,  0,  0,  0,  0,  5,-10]
    + [-20,-10,-10,-10,-10,-10,-10,-20]

  const KingMiddleTable: seq<int> :=
      [-30,-40,-40,-50,-50,-40,-40,-30]
    + [-30,-40,-40,-50,-50,-40,-40,-30]
    + [-30,-40,-40,-50,-50,-40,-40,-30]
    + [-30,-40,-40,-50,-50,-40,-40,-30]
    + [-20,-30,-30,-40,-40,-30,-30,-20]
    + [-10,-20,-20,-20,-20,-20,-20,-10]
    + [20, 20,  0,  0,  0,  0, 20, 20]
    + [20, 30, 10,  0,  0, 10, 30, 20]

  /** A piece-square table: one entry for each of the 64 squares, none
      larger than 50 either way. */
  predicate IsTable(t: seq<int>) {
    |t| == 64 && forall k :: 0 <= k < 64 ==> -50 <= t[k] <= 50
  }

  lemma PawnTableShape()
    ensures IsTable(PawnTable)
  {
  }

  lemma KnightTableShape()
    ensures IsTable(KnightTable)
  {
  }

  lemma BishopTableShape()
    ensures IsTable(BishopTable)
  {
  }

  lemma KingMiddleTableShape()
    ensures IsTable(KingMiddleTable)
  {
  }

  // ---------------------------------------------------------------------
  // Piece-square values

  /** The table entry a piece on (row, col) reads: the tables are written
      from Black's side, so White reads row 7 - row. */
  function TableIndex(row: Coord, col: Coord, color: Color): (k: nat)
    ensures k < 64
    ensures k / 8 == (if color == White then 7 - row else row)
    ensures k % 8 == col
  {
    if color == White then (7 - row) * 8 + col else row * 8 + col
  }

  /** `getPiecePositionValue`: pawns and kings weigh 0.3, knights and
      bishops 0.5, rooks and queens have no table. */
  function PiecePositionValue(kind: PieceType, row: Coord, col: Coord, color: Color): (v: real)
    ensures kind == Rook || kind == Queen ==> v == 0.0
  {
    var index := TableIndex(row, col, color);
    match kind
    case Pawn => PawnTable[index] as real * 0.3
    case Knight => KnightTable[index] as real * 0.5
    case Bishop => BishopTable[index] as real * 0.5
    case King => KingMiddleTable[index] as real * 0.3
    case _ => 0.0
  }

  /** So where one piece stands moves the score by at most 25: the largest
      table entry, 50, at the larger weight 0.5. */
  lemma PositionValueBounds(kind: PieceType, row: Coord, col: Coord, color: Color)
    ensures -25.0 <= PiecePositionValue(kind, row, col, color) <= 25.0
  {
    PawnTableShape();
    KnightTableShape();
    BishopTableShape();
    KingMiddleTableShape();
  }

  /** A white piece on (row, col) is worth what a black piece of the same
      kind is worth on (7 - row, col). */
  lemma PositionValueMirrored(kind: PieceType, row: Coord, col: Coord)
    ensures PiecePositionValue(kind, row, col, White) == PiecePositionValue(kind, 7 - row, col, Black)
    ensures TableIndex(row, col, White) == TableIndex(7 - row, col, Black)
  {
  }

  /** The contribution of one square in `evaluatePosition`'s board loop. */
  function PositionValueAt(b: Board, i: Coord, j: Coord): real {
    match b[i][j]
    case None => 0.0
    case Some(pc) =>
      var v := PiecePositionValue(pc.kind, i, j, pc.color);
      if pc.color == Black then v else -v
  }

  function PositionValueFn(b: Board): (Coord, Coord) -> real {
    (i: Coord, j: Coord) => PositionValueAt(b, i, j)
  }

  function PositionTerm(b: Board): real {
    GridSumReal(PositionValueFn(b), 8)
  }

  // ---------------------------------------------------------------------
  // Material

  function MaterialAt(b: Board, c: Color, i: Coord, j: Coord): nat {
    match b[i][j]
    case None => 0
    case Some(pc) => if pc.kind != King && pc.color == c then PieceValue(pc.kind) else 0
  }

  function MaterialFn(b: Board, c: Color): (Coord, Coord) -> int {
    (i: Coord, j: Coord) => MaterialAt(b, c, i, j)
  }

  /** The value-sum of one side's pieces, kings excluded. */
  function SideMaterial(b: Board, c: Color): int {
    GridSum(MaterialFn(b, c), 8)
  }

  /** Black's value-sum minus White's. */
  function MaterialBalance(b: Board): int {
    SideMaterial(b, Black) - SideMaterial(b, White)
  }

  lemma MaterialAtBounded(b: Board, c: Color, i: Coord, j: Coord)
    ensures MaterialAt(b, c, i, j) <= 9
  {
    if b[i][j].Some? {
      assert PieceValue(b[i][j].value.kind) <= 9;
    }
  }

  /** No square holds more than a queen's 9 points, so neither side owns
      more than 9 points on each of the 64 squares, and the balance, which
      the heuristic weighs by 100, stays within 576 either way. */
  lemma MaterialBounded(b: Board)
    ensures 0 <= SideMaterial(b, White) <= 576 && 0 <= SideMaterial(b, Black) <= 576
    ensures -576 <= MaterialBalance(b) <= 576
  {
    SideMaterialBounded(b, White);
    SideMaterialBounded(b, Black);
  }

  lemma SideMaterialBounded(b: Board, c: Color)
    ensures 0 <= SideMaterial(b, c) <= 576
  {
    forall i: Coord, j: Coord
      ensures 0 <= MaterialFn(b, c)(i, j) <= 9
    {
      MaterialAtBounded(b, c, i, j);
    }
    GridSumBounded(MaterialFn(b, c), 0, 9, 8);
  }

  /** `getMaterialBalance`. */
  method GetMaterialBalance(b: Board) returns (balance: int)
    ensures balance == SideMaterial(b, Black) - SideMaterial(b, White)
  {
    var whiteScore: int, blackScore: int := 0, 0;
    for i := 0 to 8
      invariant whiteScore == GridSum(MaterialFn(b, White), i)
      invariant blackScore == GridSum(MaterialFn(b, Black), i)
    {
      for j := 0 to 8
        invariant whiteScore == GridSum(MaterialFn(b, White), i) + RowSum(MaterialFn(b, White), i, j)
        invariant blackScore == GridSum(MaterialFn(b, Black), i) + RowSum(MaterialFn(b, Black), i, j)
      {
        var piece := b[i][j];
        if piece.Some? && piece.value.kind != King {
          var value := PieceValue(piece.value.kind);
          if piece.value.color == White {
            whiteScore := whiteScore + value;
          } else {
            blackScore := blackScore + value;
          }
        }
      }
    }
    balance := blackScore - whiteScore;
  }

  function SwapColors(b: Board): (s: Board)
    ensures forall i: Coord, j: Coord :: s[i][j] == FlipColor(b[i][j])
  {
    seq(8, i requires 0 <= i < 8 => seq(8, j requires 0 <= j < 8 => FlipColor(b[i][j])))
  }

  /** After swapping colours, one side owns exactly the material the other
      side owned before. */
  lemma SideMaterialSwap(b: Board, c: Color)
    ensures SideMaterial(SwapColors(b), c) == SideMaterial(b, Opponent(c))
  {
    var s := SwapColors(b);
    forall i: Coord, j: Coord
      ensures MaterialFn(s, c)(i, j) == MaterialFn(b, Opponent(c))(i, j)
    {
      assert s[i][j] == FlipColor(b[i][j]);
    }
    GridSumExt(MaterialFn(s, c), MaterialFn(b, Opponent(c)), 8);
  }

  /** Swapping the colour of every piece negates the material balance. */
  lemma MaterialBalanceSwap(b: Board)
    ensures MaterialBalance(SwapColors(b)) == -MaterialBalance(b)
  {
    SideMaterialSwap(b, Black);
    SideMaterialSwap(b, White);
  }

  // ---------------------------------------------------------------------
  // Pawn structure

  /** The number of pawns of one colour among the first n rows of a file. */
  function PawnsOnFile(b: Board, col: Coord, color: Color, n: nat): (count: nat)
    requires n <= 8
    ensures count <= n
  {
    if n == 0 then 0
    else PawnsOnFile(b, col, color, n - 1) + (if b[n - 1][col] == Some(Piece(Pawn, color)) then 1 else 0)
  }

  /** The support test of `evaluatePawnStructure`, as written. */
  predicate HasSupport(col: Coord) {
    col > 0 || col < 7
  }

  /** One file's contribution: doubled pawns cost their side 5, a single
      unsupported pawn 8. */
  function FileScore(b: Board, col: Coord): int {
    var whitePawns := PawnsOnFile(b, col, White, 8);
    var blackPawns := PawnsOnFile(b, col, Black, 8);
    (if whitePawns > 1 then -5 else 0)
    + (if blackPawns > 1 then 5 else 0)
    + (if whitePawns == 1 && !HasSupport(col) then -8 else 0)
    + (if blackPawns == 1 && !HasSupport(col) then 8 else 0)
  }

  /** The total over the first n files. */
  function PawnStructureUpTo(b: Board, n: nat): int
    requires n <= 8
  {
    if n == 0 then 0 else PawnStructureUpTo(b, n - 1) + FileScore(b, n - 1)
  }

  function PawnStructure(b: Board): int {
    PawnStructureUpTo(b, 8)
  }

  /** `evaluatePawnStructure`. */
  method EvaluatePawnStructure(b: Board) returns (score: int)
    ensures score == PawnStructure(b)
    ensures -40 <= score <= 40
  {
    score := 0;
    for col := 0 to 8
      invariant score == PawnStructureUpTo(b, col)
    {
      var whitePawns, blackPawns := 0, 0;
      for row := 0 to 8
        invariant whitePawns == PawnsOnFile(b, col, White, row)
        invariant blackPawns == PawnsOnFile(b, col, Black, row)
      {
        var piece := b[row][col];
        if piece.Some? && piece.value.kind == Pawn {
          if piece.value.color == White { whitePawns := whitePawns + 1; }
          if piece.value.color == Black { blackPawns := blackPawns + 1; }
        }
      }
      if whitePawns > 1 { score := score - 5; }
      if blackPawns > 1 { score := score + 5; }
      if whitePawns == 1 {
        var hasSupport := false;
        if col > 0 || col < 7 { hasSupport := true; }
        if !hasSupport { score := score - 8; }
      }
      if blackPawns == 1 {
        var hasSupport := false;
        if col > 0 || col < 7 { hasSupport := true; }
        if !hasSupport { score := score + 8; }
      }
    }
    PawnStructureBounded(b, 8);
  }

  /** The support test holds on every file, so the isolated-pawn penalty is
      never applied and each file contributes -5, 0 or +5. */
  lemma IsolatedPawnPenaltyUnreachable(b: Board, col: Coord)
    ensures HasSupport(col)
    ensures FileScore(b, col) == (if PawnsOnFile(b, col, White, 8) > 1 then -5 else 0)
                                 + (if PawnsOnFile(b, col, Black, 8) > 1 then 5 else 0)
    ensures FileScore(b, col) in {-5, 0, 5}
  {
  }

  lemma {:induction false} PawnStructureBounded(b: Board, n: nat)
    requires n <= 8
    ensures -5 * n <= PawnStructureUpTo(b, n) <= 5 * n
  {
    if n > 0 {
      PawnStructureBounded(b, n - 1);
      IsolatedPawnPenaltyUnreachable(b, n - 1);
    }
  }

  lemma {:induction false} PawnsOnFileSwap(b: Board, col: Coord, color: Color, n: nat)
    requires n <= 8
    ensures PawnsOnFile(SwapColors(b), col, color, n) == PawnsOnFile(b, col, Opponent(color), n)
  {
    if n > 0 {
      PawnsOnFileSwap(b, col, color, n - 1);
    }
  }

  /** Swapping the colour of every piece negates the pawn-structure term. */
  lemma {:induction false} PawnStructureSwap(b: Board, n: nat)
    requires n <= 8
    ensures PawnStructureUpTo(SwapColors(b), n) == -PawnStructureUpTo(b, n)
  {
    if n > 0 {
      PawnStructureSwap(b, n - 1);
      PawnsOnFileSwap(b, n - 1, White, 8);
      PawnsOnFileSwap(b, n - 1, Black, 8);
    }
  }

  // ---------------------------------------------------------------------
  // King safety

  /** 1 when (row, col) is on the board and holds a pawn of `color`. */
  function ShieldPawn(b: Board, row: int, col: int, color: Color): nat {
    if 0 <= row < 8 && 0 <= col < 8 && b[row][col] == Some(Piece(Pawn, color)) then 1 else 0
  }

  /** The row in front of a king: towards row 0 for White, row 7 for Black. */
  function ShieldRow(kingRow: Coord, color: Color): int {
    kingRow + (if color == White then -1 else 1)
  }

  /** The friendly pawns on the three squares in front of the king. */
  function PawnShield(b: Board, kingRow: Coord, kingCol: Coord, color: Color): nat {
    var row := ShieldRow(kingRow, color);
    if 0 <= row < 8 then
      ShieldPawn(b, row, kingCol - 1, color) + ShieldPawn(b, row, kingCol, color) + ShieldPawn(b, row, kingCol + 1, color)
    else 0
  }

  /** `countPawnShield`. */
  method CountPawnShield(b: Board, kingRow: Coord, kingCol: Coord, color: Color) returns (shield: nat)
    ensures shield == PawnShield(b, kingRow, kingCol, color)
    ensures shield <= 3
  {
    shield := 0;
    var direction := if color == White then -1 else 1;
    var shieldRow := kingRow + direction;
    if 0 <= shieldRow < 8 {
      for col := kingCol - 1 to kingCol + 2
        invariant shield == (if col > kingCol - 1 then ShieldPawn(b, shieldRow, kingCol - 1, color) else 0)
                            + (if col > kingCol then ShieldPawn(b, shieldRow, kingCol, color) else 0)
                            + (if col > kingCol + 1 then ShieldPawn(b, shieldRow, kingCol + 1, color) else 0)
      {
        if 0 <= col < 8 {
          var piece := b[shieldRow][col];
          if piece.Some? && piece.value.kind == Pawn && piece.value.color == color {
            shield := shield + 1;
          }
        }
      }
    }
  }

  /** One square's contribution to `evaluateKingSafety`. */
  function KingSafetyAt(b: Board, i: Coord, j: Coord): (s: int)
    ensures b[i][j] == Some(Piece(King, White)) ==> -25 <= s <= 0
    ensures b[i][j] == Some(Piece(King, Black)) ==> 0 <= s <= 25
    ensures (b[i][j].None? || b[i][j].value.kind != King) ==> s == 0
  {
    match b[i][j]
    case Some(Piece(King, White)) => -(PawnShield(b, i, j, White) as int) * 5 - (if i > 5 then 10 else 0)
    case Some(Piece(King, Black)) => PawnShield(b, i, j, Black) * 5 + (if i < 2 then 10 else 0)
    case _ => 0
  }

  function KingSafetyFn(b: Board): (Coord, Coord) -> int {
    (i: Coord, j: Coord) => KingSafetyAt(b, i, j)
  }

  function KingSafety(b: Board): int {
    GridSum(KingSafetyFn(b), 8)
  }

  /** `evaluateKingSafety`. */
  method EvaluateKingSafety(b: Board) returns (score: int)
    ensures score == KingSafety(b)
  {
    score := 0;
    for i := 0 to 8
      invariant score == GridSum(KingSafetyFn(b), i)
    {
      for j := 0 to 8
        invariant score == GridSum(KingSafetyFn(b), i) + RowSum(KingSafetyFn(b), i, j)
      {
        ghost var before := score;
        var piece := b[i][j];
        if piece.Some? && piece.value.kind == King {
          var pawnShield := CountPawnShield(b, i, j, piece.value.color);
          if piece.value.color == White {
            score := score - pawnShield * 5;
            if i > 5 { score := score - 10; }
          } else {
            score := score + pawnShield * 5;
            if i < 2 { score := score + 10; }
          }
        }
        assert score == before + KingSafetyAt(b, i, j);
        assert RowSum(KingSafetyFn(b), i, j + 1) == RowSum(KingSafetyFn(b), i, j) + KingSafetyAt(b, i, j);
      }
    }
  }

  /** The board seen from the other side: row i holds row 7 - i with
      every piece's colour changed. */
  function MirrorBoard(b: Board): (m: Board)
    ensures forall i: Coord, j: Coord :: m[i][j] == FlipColor(b[7 - i][j])
  {
    seq(8, i requires 0 <= i < 8 => seq(8, j requires 0 <= j < 8 => FlipColor(b[7 - i][j])))
  }

  /** A king and its shield seen from the other side: the mirrored king
      has the mirrored pawns in front of it, and reaches its home rows
      exactly when the original did, so its term changes sign. */
  lemma KingSafetyAtMirror(b: Board, i: Coord, j: Coord)
    ensures KingSafetyAt(MirrorBoard(b), i, j) == -KingSafetyAt(b, 7 - i, j)
  {
    var m := MirrorBoard(b);
    if b[7 - i][j].Some? && b[7 - i][j].value.kind == King {
      var c := b[7 - i][j].value.color;
      assert ShieldRow(i, Opponent(c)) == 7 - ShieldRow(7 - i, c);
      forall col | 0 <= col < 8
        ensures ShieldPawn(m, ShieldRow(i, Opponent(c)), col, Opponent(c)) == ShieldPawn(b, ShieldRow(7 - i, c), col, c)
      {
      }
    }
  }

  /** King safety is colour-blind: mirroring the board negates it. */
  lemma KingSafetyMirror(b: Board)
    ensures KingSafety(MirrorBoard(b)) == -KingSafety(b)
  {
    var m := MirrorBoard(b);
    forall i: Coord, j: Coord
      ensures KingSafetyFn(m)(i, j) == -KingSafetyFn(b)(7 - i, j)
    {
      KingSafetyAtMirror(b, i, j);
    }
    GridSumMirrorNeg(KingSafetyFn(b), KingSafetyFn(m), 8);
  }

  // ---------------------------------------------------------------------
  // Piece safety

  /** The piece on the move's origin has colour c (`game.get(m.from)`). */
  predicate MovedBy(b: Board, m: Move, c: Color) {
    Get(b, m.from).Some? && Get(b, m.from).value.color == c
  }

  /** `isSquareAttacked`: some listed move of a `byColor` piece ends on sq. */
  predicate IsSquareAttacked(b: Board, moves: seq<Move>, sq: Square, byColor: Color) {
    exists k :: 0 <= k < |moves| && MovedBy(b, moves[k], byColor) && moves[k].to == sq
  }

  /** `isSquareDefended`: some listed move of a `byColor` piece ends on or
      starts from sq. */
  predicate IsSquareDefended(b: Board, moves: seq<Move>, sq: Square, byColor: Color) {
    exists k :: 0 <= k < |moves| && MovedBy(b, moves[k], byColor) && (moves[k].to == sq || moves[k].from == sq)
  }

  /** Every attacking move also passes the defence test, so a square that
      `byColor` attacks counts as defended by `byColor`; and a square is
      defended by a piece of `byColor` standing on it as soon as that piece
      has a listed move. */
  lemma AttackedMeansDefended(b: Board, moves: seq<Move>, sq: Square, byColor: Color)
    ensures IsSquareAttacked(b, moves, sq, byColor) ==> IsSquareDefended(b, moves, sq, byColor)
    ensures (exists k :: 0 <= k < |moves| && moves[k].from == sq && MovedBy(b, moves[k], byColor)) ==> IsSquareDefended(b, moves, sq, byColor)
  {
  }

  /** One square's contribution to `evaluatePieceSafety`: a non-king piece
      attacked and undefended costs its side 40 times its value, attacked
      and defended 5 times. */
  function SafetyAt(b: Board, moves: seq<Move>, i: Coord, j: Coord): int {
    match b[i][j]
    case None => 0
    case Some(pc) =>
      if pc.kind == King then 0
      else
        var sq := Square(i, j);
        var attacked := IsSquareAttacked(b, moves, sq, Opponent(pc.color));
        var defended := IsSquareDefended(b, moves, sq, pc.color);
        if attacked && !defended then
          var penalty := PieceValue(pc.kind) * 40;
          if pc.color == Black then -penalty else penalty
        else if attacked && defended then
          var penalty := PieceValue(pc.kind) * 5;
          if pc.color == Black then -penalty else penalty
        else 0
  }

  function SafetyFn(b: Board, moves: seq<Move>): (Coord, Coord) -> int {
    (i: Coord, j: Coord) => SafetyAt(b, moves, i, j)
  }

  function PieceSafety(b: Board, moves: seq<Move>): int {
    GridSum(SafetyFn(b, moves), 8)
  }

  /** `evaluatePieceSafety`. */
  method EvaluatePieceSafety(b: Board, moves: seq<Move>) returns (score: int)
    ensures score == PieceSafety(b, moves)
  {
    score := 0;
    for i := 0 to 8
      invariant score == GridSum(SafetyFn(b, moves), i)
    {
      for j := 0 to 8
        invariant score == GridSum(SafetyFn(b, moves), i) + RowSum(SafetyFn(b, moves), i, j)
      {
        var piece := b[i][j];
        if piece.Some? && piece.value.kind != King {
          var square := Square(i, j);
          var attackedByOpponent := IsSquareAttacked(b, moves, square, Opponent(piece.value.color));
          var defendedByAlly := IsSquareDefended(b, moves, square, piece.value.color);
          if attackedByOpponent && !defendedByAlly {
            var penalty := PieceValue(piece.value.kind) * 40;
            score := score + (if piece.value.color == Black then -penalty else penalty);
          } else if attackedByOpponent && defendedByAlly {
            var penalty := PieceValue(piece.value.kind) * 5;
            score := score + (if piece.value.color == Black then -penalty else penalty);
          }
        }
      }
    }
  }

  /** The library lists only the moves of the side to move. */
  predicate AllMovesBy(b: Board, moves: seq<Move>, turn: Color) {
    forall k :: 0 <= k < |moves| ==> MovedBy(b, moves[k], turn)
  }

  /** With every listed move made by the side to move, a piece of that side
      is never penalised, and an opposing non-king piece gets the heavy
      penalty exactly when a listed move ends on its square: the light
      penalty is unreachable. */
  lemma SafetyUnderMoverOnlyMoves(b: Board, moves: seq<Move>, turn: Color, i: Coord, j: Coord)
    requires AllMovesBy(b, moves, turn)
    ensures SafetyAt(b, moves, i, j) ==
      match b[i][j]
      case Some(pc) =>
        if pc.kind != King && pc.color != turn && IsSquareAttacked(b, moves, Square(i, j), turn) then
          (if pc.color == Black then -(PieceValue(pc.kind) * 40) else PieceValue(pc.kind) * 40)
        else 0
      case None => 0
  {
    match b[i][j]
    case None =>
    case Some(pc) =>
      if pc.kind != King {
        var sq := Square(i, j);
        if IsSquareDefended(b, moves, sq, pc.color) {
          var k :| 0 <= k < |moves| && MovedBy(b, moves[k], pc.color) && (moves[k].to == sq || moves[k].from == sq);
          assert MovedBy(b, moves[k], turn);
          assert pc.color == turn;
        }
        if IsSquareAttacked(b, moves, sq, Opponent(pc.color)) {
          var k :| 0 <= k < |moves| && MovedBy(b, moves[k], Opponent(pc.color)) && moves[k].to == sq;
          assert MovedBy(b, moves[k], turn);
        }
      }
  }

  /** So the piece-safety term only ever counts the side to move's
      opponent's hanging pieces: it is at most 0 with White to move (Black
      pieces hang) and at least 0 with Black to move. */
  lemma PieceSafetySign(b: Board, moves: seq<Move>, turn: Color)
    requires AllMovesBy(b, moves, turn)
    ensures turn == White ==> PieceSafety(b, moves) <= 0
    ensures turn == Black ==> PieceSafety(b, moves) >= 0
  {
    SafetyRowsSign(b, moves, turn, 8);
  }

  lemma {:induction false} SafetyRowsSign(b: Board, moves: seq<Move>, turn: Color, n: nat)
    requires n <= 8
    requires AllMovesBy(b, moves, turn)
    ensures turn == White ==> GridSum(SafetyFn(b, moves), n) <= 0
    ensures turn == Black ==> GridSum(SafetyFn(b, moves), n) >= 0
  {
    if n > 0 {
      SafetyRowsSign(b, moves, turn, n - 1);
      SafetyRowSign(b, moves, turn, n - 1, 8);
    }
  }

  lemma {:induction false} SafetyRowSign(b: Board, moves: seq<Move>, turn: Color, r: Coord, n: nat)
    requires n <= 8
    requires AllMovesBy(b, moves, turn)
    ensures turn == White ==> RowSum(SafetyFn(b, moves), r, n) <= 0
    ensures turn == Black ==> RowSum(SafetyFn(b, moves), r, n) >= 0
  {
    if n > 0 {
      SafetyRowSign(b, moves, turn, r, n - 1);
      SafetyAtSign(b, moves, turn, r, n - 1);
    }
  }

  lemma SafetyAtSign(b: Board, moves: seq<Move>, turn: Color, i: Coord, j: Coord)
    requires AllMovesBy(b, moves, turn)
    ensures turn == White ==> SafetyAt(b, moves, i, j) <= 0
    ensures turn == Black ==> SafetyAt(b, moves, i, j) >= 0
  {
    SafetyUnderMoverOnlyMoves(b, moves, turn, i, j);
  }

  // ---------------------------------------------------------------------
  // The whole evaluation

  /** The in-check term: 30 against the side in check. */
  function CheckTerm(p: Position): real {
    if p.inCheck then (if p.turn == Black then -30.0 else 30.0) else 0.0
  }

  /** Half a point per move of `mobility`, for the side `turn`. */
  function SignedMobility(turn: Color, mobility: nat): real {
    if turn == Black then mobility as real * 0.5 else -(mobility as real) * 0.5
  }

  /** The mobility term: half a point per legal move, for the side to move. */
  function MobilityTerm(p: Position): real {
    SignedMobility(p.turn, |LegalMoves(p)|)
  }

  /** The heuristic sum `evaluatePosition` returns for a position that is
      not over. */
  function Heuristic(p: Position): real {
    (MaterialBalance(p.board) * 100) as real
    + PositionTerm(p.board)
    + CheckTerm(p)
    + MobilityTerm(p)
    + PawnStructure(p.board) as real
    + KingSafety(p.board) as real
    + PieceSafety(p.board, LegalMoves(p)) as real
  }

  /** `evaluatePosition` as a function of the position: a mate is worth
      10000 to the side that delivered it, any other finished game 0, and a
      live position its heuristic sum. */
  function Evaluate(p: Position): (score: real)
    ensures InCheckmate(p) ==> score == (if p.turn == Black then -10000.0 else 10000.0)
    ensures !InCheckmate(p) && GameOver(p) ==> score == 0.0
    ensures !GameOver(p) ==> score == Heuristic(p)
  {
    if InCheckmate(p) then (if p.turn == Black then -10000.0 else 10000.0)
    else if InStalemate(p) || InDraw(p) then 0.0
    else Heuristic(p)
  }

  /** `evaluatePosition`: the two terminal shortcuts, then the heuristic
      sum. */
  method EvaluatePosition(p: Position) returns (score: real)
    ensures score == Evaluate(p)
  {
    if InCheckmate(p) {
      return if p.turn == Black then -10000.0 else 10000.0;
    }
    if InStalemate(p) || InDraw(p) {
      return 0.0;
    }
    score := EvaluateHeuristic(p);
  }

  /** The accumulation of `evaluatePosition` after the terminal shortcuts,
      term by term in the source's order. */
  method EvaluateHeuristic(p: Position) returns (score: real)
    ensures score == Heuristic(p)
  {
    score := 0.0;
    var material := GetMaterialBalance(p.board);
    score := score + (material * 100) as real;
    var boardArray := p.board;
    var positional := EvaluatePieceSquares(boardArray);
    score := score + positional;
    score := score + CheckTerm(p);
    var mobility := |LegalMoves(p)|;
    score := score + SignedMobility(p.turn, mobility);
    var pawns := EvaluatePawnStructure(boardArray);
    score := score + pawns as real;
    var king := EvaluateKingSafety(boardArray);
    score := score + king as real;
    var safety := EvaluatePieceSafety(boardArray, LegalMoves(p));
    score := score + safety as real;
  }

  /** The board loop of `evaluatePosition`: each piece's table value, added
      for Black and subtracted for White. */
  method EvaluatePieceSquares(boardArray: Board) returns (score: real)
    ensures score == PositionTerm(boardArray)
  {
    score := 0.0;
    for i := 0 to 8
      invariant score == GridSumReal(PositionValueFn(boardArray), i)
    {
      for j := 0 to 8
        invariant score == GridSumReal(PositionValueFn(boardArray), i) + RowSumReal(PositionValueFn(boardArray), i, j)
      {
        var piece := boardArray[i][j];
        if piece.Some? {
          var positionValue := PiecePositionValue(piece.value.kind, i, j, piece.value.color);
          if piece.value.color == Black {
            score := score + positionValue;
          } else {
            score := score - positionValue;
          }
        }
      }
    }
  }
}
