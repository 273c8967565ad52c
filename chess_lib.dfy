/** The interface of the third-party chess rules library (chess.js; the
    worker loads version 0.12.1, and the page is taken to use the same) as
    the two searchers use it. Move generation, check detection and FEN
    handling stay inside the library: a position carries the legal moves
    the library would list, in the library's order, each with the position
    it leads to. The library goes on listing moves after a game is drawn by
    the fifty-move or the repetition rule, so its own tree is infinite; a
    `Position` is that tree cut off below the positions a search reaches.
    Every position the search visits, the evaluated leaves included, keeps
    its full move list, which the leaf needs for checkmate, stalemate and
    mobility; only the positions one move beyond the leaves may be cut to
    carry no moves, and the search never looks at them. The terminal
    predicates are the library's, stated from its primitive flags. */
module ChessLib {
  import opened Options

  datatype Color = White | Black

  function Opponent(c: Color): (o: Color)
    ensures o != c
  {
    if c == White then Black else White
  }

  datatype PieceType = Pawn | Knight | Bishop | Rook | Queen | King

  datatype Piece = Piece(kind: PieceType, color: Color)

  /** The contents of a square with the piece, if any, given to the other
      side. */
  function FlipColor(sq: Option<Piece>): (r: Option<Piece>)
    ensures r.None? <==> sq.None?
    ensures r.Some? ==> r.value.kind == sq.value.kind && r.value.color == Opponent(sq.value.color)
  {
    match sq
    case None => None
    case Some(pc) => Some(Piece(pc.kind, Opponent(pc.color)))
  }

  /** A row or column index of `game.board()`: row 0 is rank 8, column 0 is
      file a, so the square named `String.fromCharCode(97 + j) + (8 - i)`
      is (i, j). */
  type Coord = x: int | 0 <= x < 8

  datatype Square = Square(row: Coord, col: Coord)

  /** `game.board()`: eight rows of eight squares, each empty or holding a
      piece. */
  type Board = b: seq<seq<Option<Piece>>> | |b| == 8 && forall r :: 0 <= r < 8 ==> |b[r]| == 8
    witness seq(8, _ => seq(8, _ => None))

  /** `game.get(square)`. */
  function Get(b: Board, sq: Square): Option<Piece> {
    b[sq.row][sq.col]
  }

  /** A verbose move descriptor of the library. */
  datatype Move = Move(from: Square, to: Square, promotion: Option<PieceType>, captured: Option<PieceType>)

  datatype Position = Position(
    board: Board,
    turn: Color,
    inCheck: bool,
    halfMoves: nat,
    insufficientMaterial: bool,
    threefoldRepetition: bool,
    branches: seq<Branch>)

  /** A legal move and the position `game.move` produces from it. */
  datatype Branch = Branch(move: Move, after: Position)

  /** `game.moves({ verbose: true })`, in the library's order. */
  function LegalMoves(p: Position): (ms: seq<Move>)
    ensures |ms| == |p.branches|
    ensures forall i :: 0 <= i < |ms| ==> ms[i] == p.branches[i].move
  {
    seq(|p.branches|, i requires 0 <= i < |p.branches| => p.branches[i].move)
  }

  /** `game.in_checkmate()`: in check with no legal move. */
  predicate InCheckmate(p: Position) {
    p.inCheck && |p.branches| == 0
  }

  /** `game.in_stalemate()`: not in check and no legal move. */
  predicate InStalemate(p: Position) {
    !p.inCheck && |p.branches| == 0
  }

  /** `game.in_draw()`: the fifty-move rule, stalemate, insufficient
      material or threefold repetition. */
  predicate InDraw(p: Position) {
    p.halfMoves >= 100 || InStalemate(p) || p.insufficientMaterial || p.threefoldRepetition
  }

  /** `game.game_over()`: checkmate or a draw. */
  predicate GameOver(p: Position) {
    InCheckmate(p) || InDraw(p)
  }

  /** Checkmate and stalemate are the two ways of having no legal move,
      told apart by check; they never hold together. */
  lemma NoMoveCases(p: Position)
    ensures InCheckmate(p) <==> p.inCheck && LegalMoves(p) == []
    ensures InStalemate(p) <==> !p.inCheck && LegalMoves(p) == []
    ensures !(InCheckmate(p) && InStalemate(p))
  {
  }

  /** A draw is exactly one of the library's four drawing rules. */
  lemma DrawCases(p: Position)
    ensures InDraw(p) <==> p.halfMoves >= 100 || InStalemate(p) || p.insufficientMaterial || p.threefoldRepetition
  {
  }

  /** The game is over exactly on one of the library's five terminal
      conditions, and always when the side to move has no legal move. */
  lemma GameOverCases(p: Position)
    ensures GameOver(p) <==> p.halfMoves >= 100 || InCheckmate(p) || InStalemate(p) || p.insufficientMaterial || p.threefoldRepetition
    ensures LegalMoves(p) == [] ==> GameOver(p)
  {
  }

  /** A position that is not over has a legal move to search. */
  lemma NoMovesMeansOver(p: Position)
    requires !GameOver(p)
    ensures |p.branches| > 0
  {
  }

  /** The library's shared `game` object: the current position and the
      stack of positions that `undo` returns to. */
  class Game {
    var pos: Position
    var history: seq<Position>

    /** `new Chess(fen)`, with the position the FEN describes. */
    constructor (start: Position)
      ensures pos == start && history == []
    {
      pos := start;
      history := [];
    }

    function Moves(): (ms: seq<Move>)
      reads this
      ensures ms == LegalMoves(pos)
    {
      LegalMoves(pos)
    }

    /** `game.game_over()` on the current position. */
    function IsGameOver(): (r: bool)
      reads this
      ensures r == GameOver(pos)
    {
      GameOver(pos)
    }

    /** `game.move(m)` with the i-th move of the list just generated: the
        current position is pushed and the move's result becomes current. */
    method Play(i: nat)
      requires i < |pos.branches|
      modifies this
      ensures history == old(history) + [old(pos)]
      ensures pos == old(pos).branches[i].after
    {
      history := history + [pos];
      pos := pos.branches[i].after;
    }

    /** `game.undo()`: pops the last position pushed, or, on an empty
        history, changes nothing and reports it (the library returns null). */
    method Undo() returns (undone: bool)
      modifies this
      ensures undone <==> old(history) != []
      ensures undone ==> pos == old(history)[|old(history)| - 1] && history == old(history)[..|old(history)| - 1]
      ensures !undone ==> pos == old(pos) && history == old(history)
    {
      if history == [] {
        return false;
      }
      pos := history[|history| - 1];
      history := history[..|history| - 1];
      return true;
    }

    /** `undo` inverts `move`: playing a legal move and taking it back leaves
        the game as it was. */
    method PlayThenUndo(i: nat)
      requires i < |pos.branches|
      modifies this
      ensures pos == old(pos) && history == old(history)
    {
      Play(i);
      var undone := Undo();
      assert undone;
    }
  }
}
