/** The board as it is played on: pieces that are moved and marked in place, and
    moves that remember what they have to put back. */
module ChessBoard {
  import opened ChessRules
  import opened ChessMoves
  import opened ChessGame
  import opened Wrappers

  class Piece {
    const color: Color
    const kind: Kind
    var pos: Square
    var hasMoved: bool

    constructor (color: Color, kind: Kind, pos: Square)
      ensures this.color == color && this.kind == kind && this.pos == pos && !hasMoved
    {
      this.color, this.kind, this.pos, this.hasMoved := color, kind, pos, false;
    }

    ghost function Stands(): Man
      reads this
    {
      Man(color, kind, hasMoved)
    }

    /** One direction of `slide_moves`. */
    method SlideAlong(board: Board, d: Dir) returns (moves: seq<Ply>)
      requires Shows(board.squares, board.men) && ValidPos(pos) && UnitDir(d)
      ensures Moves(moves) == Plains(pos, RaySquares(board.men, color, pos, d, 1))
      ensures forall m :: m in moves ==> fresh(m) && m.Tidy()
    {
      hide ValidPos, UnitDir, Ray, Plains, Plain, Moves, RaySquares, Shows;
      moves := [];
      ghost var all := RaySquares(board.men, color, pos, d, 1);
      ghost var done: seq<Square> := [];
      ghost var k := 1;
      NoMoves(pos);
      FirstStep(pos, d);
      var r, c := pos.row + d.dr, pos.col + d.dc;
      while ValidPos(Square(r, c))
        invariant k > 0 && Square(r, c) == Ray(pos, d, k)
        invariant Moves(moves) == Plains(pos, done)
        invariant done + RaySquares(board.men, color, pos, d, k) == all
        invariant forall m :: m in moves ==> fresh(m) && m.Tidy()
        decreases 8 - k
      {
        RayInside(pos, d, k, k);
        NextStep(pos, d, k);
        var s := Square(r, c);
        RaySquaresStep(board.men, color, pos, d, k);
        ShownAt(board.squares, board.men, s);
        if s !in board.squares {
          var ply := new Ply(Plain(pos, s));
          MoveAdded(pos, moves, done, s, ply);
          moves, done := moves + [ply], done + [s];
        } else if board.squares[s].color != color {
          var ply := new Ply(Plain(pos, s));
          MoveAdded(pos, moves, done, s, ply);
          moves, done := moves + [ply], done + [s];
          break;
        } else {
          break;
        }
        r, c, k := r + d.dr, c + d.dc, k + 1;
      }
      RayEnd(board.men, color, pos, d, k);
      assert done == all;
    }

    method SlideMoves(board: Board, directions: seq<Dir>) returns (moves: seq<Ply>)
      requires Shows(board.squares, board.men) && ValidPos(pos)
      requires forall d :: d in directions ==> UnitDir(d)
      ensures Moves(moves) == Plains(pos, Slides(board.men, color, pos, directions))
      ensures forall m :: m in moves ==> fresh(m) && m.Tidy()
    {
      hide Shows, ValidPos, UnitDir, RaySquares, Plains, Moves;
      moves := [];
      ghost var done: seq<Square> := [];
      NoMoves(pos);
      var i := 0;
      while i < |directions|
        invariant 0 <= i <= |directions| && Moves(moves) == Plains(pos, done)
        invariant done + Slides(board.men, color, pos, directions[i..]) == Slides(board.men, color, pos, directions)
        invariant forall m :: m in moves ==> fresh(m) && m.Tidy()
      {
        var d := directions[i];
        assert directions[i..][1..] == directions[i + 1..];
        ghost var ray := RaySquares(board.men, color, pos, d, 1);
        var more := SlideAlong(board, d);
        MovesConcat(moves, more);
        PlainsConcat(pos, done, ray);
        moves, done := moves + more, done + ray;
        i := i + 1;
      }
      assert done == Slides(board.men, color, pos, directions);
    }

    /** The loop that knights and kings run over their offsets. */
    method HopMoves(board: Board, offsets: seq<Dir>) returns (moves: seq<Ply>)
      requires Shows(board.squares, board.men)
      ensures Moves(moves) == Plains(pos, Hops(board.men, color, pos, offsets))
      ensures forall m :: m in moves ==> fresh(m) && m.Tidy()
    {
      hide ValidPos, Plains, Plain, Moves, Shows, Hops;
      moves := [];
      ghost var done: seq<Square> := [];
      NoMoves(pos);
      HopsEnd(board.men, color, pos, offsets);
      var i := 0;
      while i < |offsets|
        invariant 0 <= i <= |offsets| && Moves(moves) == Plains(pos, done)
        invariant done + Hops(board.men, color, pos, offsets[i..]) == Hops(board.men, color, pos, offsets)
        invariant forall m :: m in moves ==> fresh(m) && m.Tidy()
      {
        var s := Square(pos.row + offsets[i].dr, pos.col + offsets[i].dc);
        HopsStep(board.men, color, pos, offsets, i);
        ShownAt(board.squares, board.men, s);
        if ValidPos(s) && (s !in board.squares || board.squares[s].color != color) {
          var ply := new Ply(Plain(pos, s));
          MoveAdded(pos, moves, done, s, ply);
          moves, done := moves + [ply], done + [s];
        }
        i := i + 1;
      }
      assert done == Hops(board.men, color, pos, offsets);
    }

    method PawnPushMoves(board: Board) returns (moves: seq<Ply>)
      requires Shows(board.squares, board.men)
      ensures Moves(moves) == PawnPushes(board.men, color, pos)
      ensures forall m :: m in moves ==> fresh(m) && m.Tidy()
    {
      moves := [];
      var direction := if color == White then -1 else 1;
      var startRow := if color == White then 6 else 1;
      var promoRow := if color == White then 0 else 7;
      var one := Square(pos.row + direction, pos.col);
      if ValidPos(one) && one !in board.squares {
        var push := new Ply(Plain(pos, one).(isPromotion := one.row == promoRow));
        moves := [push];
        if pos.row == startRow {
          var two := Square(pos.row + 2 * direction, pos.col);
          if two !in board.squares {
            var double := new Ply(Plain(pos, two).(isDoublePush := true));
            moves := moves + [double];
          }
        }
      }
    }

    method PawnCaptureMoves(board: Board, dc: int) returns (moves: seq<Ply>)
      requires Shows(board.squares, board.men)
      ensures Moves(moves) == PawnCaptures(board.Position(), color, pos, dc)
      ensures forall m :: m in moves ==> fresh(m) && m.Tidy()
    {
      hide ValidPos, Plain, Shows;
      moves := [];
      var s := Square(pos.row + (if color == White then -1 else 1), pos.col + dc);
      ShownAt(board.squares, board.men, s);
      if ValidPos(s) {
        if s in board.squares && board.squares[s].color != color {
          var capture := new Ply(Plain(pos, s).(isPromotion := s.row == (if color == White then 0 else 7)));
          moves := moves + [capture];
        }
        if s == board.epPos {
          var enPassant := new Ply(Plain(pos, s).(isEnPassant := true));
          moves := moves + [enPassant];
        }
      }
    }

    /** The moves of the piece, by its kind. */
    method RawMoves(board: Board) returns (moves: seq<Ply>)
      requires Shows(board.squares, board.men) && ValidPos(pos) && pos in board.squares && board.squares[pos] == this
      ensures pos in board.men && Moves(moves) == ChessRules.RawMoves(board.Position(), pos)
      ensures forall m :: m in moves ==> fresh(m) && m.Tidy()
    {
      hide Moves, Plains, Hops, Slides, PawnPushes, PawnCaptures;
      DirsAreUnit();
      hide BISHOP_DIRS, ROOK_DIRS, ALL_DIRS, KNIGHT_HOPS, UnitDir;
      match kind {
        case Pawn =>
          var pushes := PawnPushMoves(board);
          var left := PawnCaptureMoves(board, -1);
          var right := PawnCaptureMoves(board, 1);
          MovesConcat(pushes, left);
          MovesConcat(pushes + left, right);
          moves := pushes + left + right;
        case Knight =>
          moves := HopMoves(board, KNIGHT_HOPS);
        case Bishop =>
          moves := SlideMoves(board, BISHOP_DIRS);
        case Rook =>
          moves := SlideMoves(board, ROOK_DIRS);
        case Queen =>
          moves := SlideMoves(board, ALL_DIRS);
        case King =>
          moves := HopMoves(board, ALL_DIRS);
      }
    }
  }

  /** The pieces on the squares are of the men's colours and kinds. */
  predicate Shows(squares: map<Square, Piece>, men: Men) {
    && (forall s :: s in squares ==> s in men && squares[s].color == men[s].color && squares[s].kind == men[s].kind)
    && (forall s :: s in men ==> s in squares)
  }

  function Moves(plies: seq<Ply>): (ms: seq<Move>)
    ensures |ms| == |plies|
  {
    seq(|plies|, i requires 0 <= i < |plies| => plies[i].move)
  }

  lemma ShownAt(squares: map<Square, Piece>, men: Men, s: Square)
    requires Shows(squares, men)
    ensures s in squares <==> s in men
    ensures s in squares ==> squares[s].color == men[s].color && squares[s].kind == men[s].kind
  {
  }

  lemma RaySquaresStep(men: Men, c: Color, from: Square, d: Dir, k: nat)
    requires k < 8 && ValidPos(Ray(from, d, k))
    ensures var s := Ray(from, d, k);
            RaySquares(men, c, from, d, k) ==
            if s !in men then [s] + RaySquares(men, c, from, d, k + 1) else if men[s].color != c then [s] else []
  {
  }

  lemma HopsStep(men: Men, c: Color, from: Square, offsets: seq<Dir>, i: nat)
    requires i < |offsets|
    ensures var s := Square(from.row + offsets[i].dr, from.col + offsets[i].dc);
            Hops(men, c, from, offsets[i..]) ==
            (if ValidPos(s) && (s !in men || men[s].color != c) then [s] else []) + Hops(men, c, from, offsets[i + 1..])
  {
    hide ValidPos;
    assert offsets[i..][1..] == offsets[i + 1..];
  }

  lemma HopsEnd(men: Men, c: Color, from: Square, offsets: seq<Dir>)
    ensures offsets[0..] == offsets && Hops(men, c, from, offsets[|offsets|..]) == []
  {
  }

  lemma RayEnd(men: Men, c: Color, from: Square, d: Dir, k: nat)
    ensures !ValidPos(Ray(from, d, k)) ==> RaySquares(men, c, from, d, k) == []
  {
  }

  lemma NoMoves(from: Square)
    ensures Moves([]) == Plains(from, [])
  {
  }

  lemma MovesConcat(a: seq<Ply>, b: seq<Ply>)
    ensures Moves(a + b) == Moves(a) + Moves(b)
  {
  }

  lemma MoveAdded(from: Square, plies: seq<Ply>, tos: seq<Square>, to: Square, ply: Ply)
    requires Moves(plies) == Plains(from, tos) && ply.move == Plain(from, to)
    ensures Moves(plies + [ply]) == Plains(from, tos + [to])
  {
    PlainsConcat(from, tos, [to]);
    assert Moves(plies + [ply]) == Moves(plies) + [ply.move];
  }

  lemma FirstStep(from: Square, d: Dir)
    requires UnitDir(d)
    ensures Square(from.row + d.dr, from.col + d.dc) == Ray(from, d, 1)
  {
  }

  lemma NextStep(from: Square, d: Dir, k: nat)
    requires UnitDir(d)
    ensures var s := Ray(from, d, k); Square(s.row + d.dr, s.col + d.dc) == Ray(from, d, k + 1)
  {
  }

  /** A move object: the move, and the state that making it writes down. */
  class Ply {
    const move: Move
    var capturedPiece: Piece?
    var promotedFrom: Piece?
    var prevHasMoved: bool
    var prevEp: Square
    var prevRights: bv4

    constructor (move: Move)
      ensures this.move == move && Tidy()
    {
      this.move := move;
      capturedPiece, promotedFrom, prevHasMoved, prevEp, prevRights := null, null, false, NOWHERE, CASTLE_ALL;
    }

    predicate Tidy()
      reads this
    {
      !move.isPromotion ==> promotedFrom == null
    }

    ghost function Record(): Undo
      reads this, capturedPiece, promotedFrom
    {
      Undo(ManOf(capturedPiece), ManOf(promotedFrom), prevHasMoved, prevEp, prevRights)
    }
  }

  ghost function ManOf(p: Piece?): Option<Man>
    reads p
  {
    if p == null then None else Some(p.Stands())
  }

  function Nullable(p: Option<Piece>): Piece? {
    if p.Some? then p.value else null
  }

  function MaybePiece(p: Piece?): Option<Piece> {
    if p == null then None else Some(p)
  }

  lemma SomePiece(p: Piece?)
    ensures forall q: Piece :: Some(q) == MaybePiece(p) ==> q == p
  {
  }

  predicate SameSquares<A, B>(a: map<Square, A>, b: map<Square, B>) {
    (forall s :: s in a ==> s in b) && (forall s :: s in b ==> s in a)
  }

  lemma PlacedPair<A, B>(a: map<Square, A>, b: map<Square, B>, mv: Move, x: A, y: B)
    requires SameSquares(a, b) && OnBoard(a) && ValidPos(mv.to)
    ensures SameSquares(Placed(a, mv, x), Placed(b, mv, y)) && OnBoard(Placed(a, mv, x))
    ensures mv.to in Placed(a, mv, x) && mv.to in Placed(b, mv, y) && Placed(a, mv, x)[mv.to] == x && Placed(b, mv, y)[mv.to] == y
    ensures forall s :: s in Placed(a, mv, x) && s != mv.to ==>
      && s in a && s in b && s in Placed(b, mv, y) && s != mv.from
      && Placed(a, mv, x)[s] == a[s] && Placed(b, mv, y)[s] == b[s]
  {
    hide Placed;
    PlacedAt(a, mv, x);
    PlacedAt(b, mv, y);
  }

  lemma ShiftedPair<A, B>(a: map<Square, A>, b: map<Square, B>, from: Square, to: Square, x: A, y: B)
    requires SameSquares(a, b) && OnBoard(a) && ValidPos(to) && from != to
    ensures SameSquares(Shifted(a, from, to, x), Shifted(b, from, to, y)) && OnBoard(Shifted(a, from, to, x))
    ensures to in Shifted(a, from, to, x) && to in Shifted(b, from, to, y)
    ensures Shifted(a, from, to, x)[to] == x && Shifted(b, from, to, y)[to] == y
    ensures forall s :: s in Shifted(a, from, to, x) && s != to ==>
      && s in a && s in b && s in Shifted(b, from, to, y) && s != from
      && Shifted(a, from, to, x)[s] == a[s] && Shifted(b, from, to, y)[s] == b[s]
  {
    hide ValidPos;
  }

  lemma MadeEp(p: Position, m: Move)
    ensures m.from in p.men ==>
      Made(p, m).ep == if m.isDoublePush then Square(m.from.row + Forward(p.men[m.from].color), m.from.col) else NOWHERE
    ensures m.from !in p.men ==> Made(p, m) == p
  {
  }

  lemma UndoneParts(p: Position, m: Move, u: Undo)
    ensures var man := if m.isPromotion then u.promotedFrom else At(p.men, m.to);
            && (man.None? ==> Undone(p, m, u) == p)
            && (man.Some? ==> Undone(p, m, u).ep == u.ep && Undone(p, m, u).rights == u.rights)
  {
  }

  lemma RightsOfKind(rights: bv4, man: Man, from: Square)
    ensures RightsAfter(rights, man.(hasMoved := true), from) == RightsAfter(rights, man, from)
  {
  }

  lemma UpdatePair<A, B>(a: map<Square, A>, b: map<Square, B>, s: Square, x: A, y: B)
    requires SameSquares(a, b) && OnBoard(a) && ValidPos(s)
    ensures SameSquares(a[s := x], b[s := y]) && OnBoard(a[s := x])
  {
  }

  lemma UnplacedPair<A, B>(a: map<Square, A>, b: map<Square, B>, m: Move, x: A, y: B, cx: Option<A>, cy: Option<B>)
    requires SameSquares(a, b) && OnBoard(a) && ValidPos(m.from) && (cx.Some? ==> ValidPos(Victim(m))) && (cx.Some? <==> cy.Some?)
    ensures SameSquares(Unplaced(a, m, x, cx), Unplaced(b, m, y, cy)) && OnBoard(Unplaced(a, m, x, cx))
    ensures forall s :: s in Unplaced(a, m, x, cx) ==>
      && s in Unplaced(b, m, y, cy)
      && var (u, v) := (Unplaced(a, m, x, cx)[s], Unplaced(b, m, y, cy)[s]);
         if s == Victim(m) then cx == Some(u) && cy == Some(v)
         else if s == m.from then u == x && v == y
         else s in a && s in b && s != m.to && u == a[s] && v == b[s]
  {
    hide ValidPos, Victim;
  }

  lemma UnplacedFrom<A>(a: map<Square, A>, m: Move, x: A, captured: Option<A>)
    ensures forall s :: s in Unplaced(a, m, x, captured) ==>
      var u := Unplaced(a, m, x, captured)[s]; u == x || Some(u) == captured || u in a.Values
  {
    hide Victim;
  }

  function RookOf(squares: map<Square, Piece>, m: Move): set<Piece> {
    if m.isCastling && RookFrom(m) in squares then {squares[RookFrom(m)]} else {}
  }

  /** The pieces that a move changes: its own, and castling's rook. */
  function MovedBy(squares: map<Square, Piece>, m: Move): set<Piece> {
    (if m.from in squares then {squares[m.from]} else {}) + RookOf(squares, m)
  }

  lemma MovedPieces(squares: map<Square, Piece>, m: Move, who: Piece)
    requires m.from in squares
    ensures squares[m.from] in MovedBy(squares, m)
    ensures forall p :: p in RookOf(Placed(squares, m, who), m) ==> p == who || p in MovedBy(squares, m)
  {
    hide Placed;
    PlacedAt(squares, m, who);
  }

  /** The initial men of the first columns. */
  function Columns(col: nat): Men {
    map s | s in HomeSquares() && s.col < col :: HomeMan(s)
  }

  lemma ColumnsFromTo()
    ensures Columns(0) == map[] && Columns(8) == Initial().men
  {
    assert forall s :: s in HomeSquares() ==> 0 <= s.col < 8;
  }

  lemma BackRankAt(kinds: seq<Kind>, col: nat)
    requires kinds == [Rook, Knight, Bishop, Queen, King, Bishop, Knight, Rook] && col < 8
    ensures kinds[col] == BackRank(col)
  {
  }

  lemma NextColumn(col: nat)
    requires col < 8
    ensures forall r :: Square(r, col) !in Columns(col)
    ensures Columns(col + 1) ==
      Columns(col)[Square(0, col) := Man(Black, BackRank(col), false)][Square(1, col) := Man(Black, Pawn, false)]
        [Square(6, col) := Man(White, Pawn, false)][Square(7, col) := Man(White, BackRank(col), false)]
  {
    hide BackRank;
    var next := Columns(col)[Square(0, col) := Man(Black, BackRank(col), false)][Square(1, col) := Man(Black, Pawn, false)]
        [Square(6, col) := Man(White, Pawn, false)][Square(7, col) := Man(White, BackRank(col), false)];
    assert forall r, c :: Square(r, c) in HomeSquares() <==> 0 <= r < 8 && 0 <= c < 8 && (r < 2 || r >= 6);
    forall s ensures s in Columns(col + 1) <==> s in next {
      var Square(r, c) := s;
    }
    assert Columns(col + 1).Keys == next.Keys;
  }

  lemma MovedInside(squares: map<Square, Piece>, m: Move)
    ensures MovedBy(squares, m) <= squares.Values
  {
  }

  class Board {
    var squares: map<Square, Piece>
    var epPos: Square
    var castlingRights: bv4
    /** What the pieces on the squares are. */
    ghost var men: Men

    ghost predicate Valid()
      reads this`squares, this`men, squares.Values
    {
      && OnBoard(squares) && SameSquares(squares, men)
      && forall s :: s in squares ==> squares[s].pos == s && squares[s].Stands() == men[s]
    }

    ghost function Position(): Position
      reads this
    {
      ChessRules.Position(men, epPos, castlingRights)
    }

    constructor ()
      ensures Valid() && Position() == Initial()
      ensures forall p :: p in squares.Values ==> fresh(p)
    {
      squares, epPos, castlingRights := map[], NOWHERE, CASTLE_ALL;
      men := map[];
      new;
      hide BackRank;
      SetupPieces();
    }

    /** The four rows, column by column. */
    method SetupPieces()
      requires squares == map[] && men == map[]
      modifies this`squares, this`men
      ensures Valid() && men == Initial().men
      ensures forall p :: p in squares.Values ==> fresh(p)
    {
      ColumnsFromTo();
      assert Valid();
      hide BackRank, Columns, Valid;
      var backRank := [Rook, Knight, Bishop, Queen, King, Bishop, Knight, Rook];
      var col := 0;
      while col < 8
        invariant col <= 8 && Valid() && men == Columns(col)
        invariant forall p :: p in squares.Values ==> fresh(p)
      {
        BackRankAt(backRank, col);
        SetupColumn(col, backRank[col]);
        col := col + 1;
      }
    }

    method SetupColumn(col: nat, kind: Kind)
      requires Valid() && col < 8 && men == Columns(col) && kind == BackRank(col)
      modifies this`squares, this`men
      ensures Valid() && men == Columns(col + 1)
      ensures forall p :: p in squares.Values ==> p in old(squares.Values) || fresh(p)
    {
      hide BackRank, Columns, Valid;
      NextColumn(col);
      AddPiece(kind, Black, Square(0, col));
      AddPiece(Pawn, Black, Square(1, col));
      AddPiece(Pawn, White, Square(6, col));
      AddPiece(kind, White, Square(7, col));
    }

    method AddPiece(kind: Kind, color: Color, s: Square)
      requires Valid() && ValidPos(s) && s !in men
      modifies this`squares, this`men
      ensures Valid() && men == old(men)[s := Man(color, kind, false)]
      ensures forall p :: p in squares.Values ==> p in old(squares.Values) || fresh(p)
    {
      var piece := new Piece(color, kind, s);
      UpdatePair(squares, men, s, piece, Man(color, kind, false));
      hide ValidPos, OnBoard, SameSquares;
      squares := squares[s := piece];
      men := men[s := Man(color, kind, false)];
    }

    /** Takes the captured piece off and puts the piece on its new square. */
    method PutPieces(m: Ply)
      requires m.move.from in squares
      modifies this`squares, m`capturedPiece
      ensures m.capturedPiece == Nullable(At(old(squares), Victim(m.move)))
      ensures squares == Placed(old(squares), m.move, old(squares)[m.move.from])
    {
      var mv := m.move;
      var piece := squares[mv.from];
      m.capturedPiece := Nullable(At(squares, Victim(mv)));
      if mv.isEnPassant {
        squares := squares - {Square(mv.from.row, mv.to.col)};
      }
      squares := squares - {mv.from};
      squares := squares[mv.to := piece];
    }

    /** The piece arrives on its square. */
    method Arrive(m: Ply)
      requires Valid() && m.move.from in squares && ValidPos(m.move.to)
      modifies this`squares, this`men, squares[m.move.from], m`capturedPiece
      ensures Valid()
      ensures m.capturedPiece == Nullable(At(old(squares), Victim(m.move)))
      ensures squares == Placed(old(squares), m.move, old(squares)[m.move.from])
      ensures men == Placed(old(men), m.move, old(men)[m.move.from].(hasMoved := true))
      ensures old(squares)[m.move.from].hasMoved
    {
      hide Placed, ValidPos, At, Victim, Nullable;
      var mv := m.move;
      var piece := squares[mv.from];
      ghost var before := squares;
      ghost var man := men[mv.from].(hasMoved := true);
      hide SameSquares, OnBoard;
      PlacedPair(before, men, mv, piece, man);
      PutPieces(m);
      piece.pos := mv.to;
      piece.hasMoved := true;
      men := Placed(men, mv, man);
      forall s | s in squares ensures squares[s].pos == s && squares[s].Stands() == men[s] {
        assert s != mv.to ==> squares[s] == before[s] && old(before[s].pos) == s;
      }
    }

    /** The pawn that has arrived makes way for a queen. */
    method Promote(m: Ply) returns (ghost who: Piece)
      requires Valid() && m.move.to in squares
      modifies this`squares, this`men, m`promotedFrom
      ensures Valid() && fresh(who)
      ensures m.promotedFrom == old(squares)[m.move.to]
      ensures squares == old(squares)[m.move.to := who]
      ensures m.move.to in old(men) && men == old(men)[m.move.to := Man(old(men)[m.move.to].color, Queen, true)]
    {
      KnownPiece(m.move.to);
      assert ValidPos(m.move.to);
      hide ValidPos, OnBoard, SameSquares;
      var piece := squares[m.move.to];
      m.promotedFrom := piece;
      var queen := new Piece(piece.color, Queen, m.move.to);
      queen.hasMoved := true;
      UpdatePair(squares, men, m.move.to, queen, Man(piece.color, Queen, true));
      squares := squares[m.move.to := queen];
      men := men[m.move.to := Man(piece.color, Queen, true)];
      who := queen;
    }

    method PutRook(a: Square, b: Square)
      requires a in squares
      modifies this`squares
      ensures squares == Shifted(old(squares), a, b, old(squares)[a])
    {
      var rook := squares[a];
      squares := squares - {a};
      squares := squares[b := rook];
    }

    /** Castling's rook goes from `a` to `b`. */
    method MoveRook(a: Square, b: Square, moved: bool)
      requires Valid() && a in squares && ValidPos(b) && a != b
      modifies this`squares, this`men, squares[a]
      ensures Valid()
      ensures squares == Shifted(old(squares), a, b, old(squares)[a])
      ensures a in old(men) && men == Shifted(old(men), a, b, old(men)[a].(hasMoved := moved))
      ensures old(squares)[a].hasMoved == moved
    {
      var rook := squares[a];
      ghost var man := men[a].(hasMoved := moved);
      hide Shifted, ValidPos, OnBoard, SameSquares;
      ShiftedPair(squares, men, a, b, rook, man);
      ghost var before := squares;
      PutRook(a, b);
      rook.pos := b;
      rook.hasMoved := moved;
      men := Shifted(men, a, b, man);
      forall s | s in squares ensures squares[s].pos == s && squares[s].Stands() == men[s] {
        assert s != b ==> squares[s] == before[s] && old(before[s].pos) == s;
      }
    }

    method UpdateRights(piece: Piece, from: Square)
      modifies this`castlingRights
      ensures castlingRights == RightsAfter(old(castlingRights), piece.Stands(), from)
    {
      if piece.kind == King {
        if piece.color == White {
          castlingRights := castlingRights & !(CASTLE_WK | CASTLE_WQ);
        } else {
          castlingRights := castlingRights & !(CASTLE_BK | CASTLE_BQ);
        }
      } else if piece.kind == Rook {
        if from.row == 7 && from.col == 0 {
          castlingRights := castlingRights & !CASTLE_WQ;
        } else if from.row == 7 && from.col == 7 {
          castlingRights := castlingRights & !CASTLE_WK;
        } else if from.row == 0 && from.col == 0 {
          castlingRights := castlingRights & !CASTLE_BQ;
        } else if from.row == 0 && from.col == 7 {
          castlingRights := castlingRights & !CASTLE_BK;
        }
      }
    }

    lemma SameKey(s: Square)
      requires Valid()
      ensures s in squares <==> s in men
    {
    }

    lemma KnownPiece(s: Square)
      requires Valid()
      ensures s in squares <==> s in men
      ensures s in squares ==> squares[s] in squares.Values && squares[s].Stands() == men[s] && squares[s].pos == s
    {
    }

    /** The piece moves, and is promoted. */
    method PlaceMan(m: Ply) returns (ghost who: Piece)
      requires Valid() && m.move.from in squares && ValidPos(m.move.to)
      modifies this`squares, this`men, this`castlingRights, squares[m.move.from], m`capturedPiece, m`promotedFrom
      ensures Valid()
      ensures m.capturedPiece == Nullable(At(old(squares), Victim(m.move)))
      ensures m.promotedFrom == if m.move.isPromotion then old(squares)[m.move.from] else old(m.promotedFrom)
      ensures if m.move.isPromotion then fresh(who) else who == old(squares)[m.move.from]
      ensures squares == Placed(old(squares), m.move, who)
      ensures m.move.from in old(men) && men == Placed(old(men), m.move, Arriving(old(men)[m.move.from], m.move))
      ensures castlingRights == RightsAfter(old(castlingRights), old(men)[m.move.from], m.move.from)
      ensures old(squares)[m.move.from].hasMoved
    {
      var mv := m.move;
      assert SameSquares(squares, men);
      var piece := squares[mv.from];
      ghost var man := men[mv.from];
      hide Placed, ValidPos, At, Victim, Nullable, RightsAfter, OnBoard, SameSquares;
      RightsOfKind(castlingRights, man, mv.from);
      Arrive(m);
      who := piece;
      UpdateRights(piece, mv.from);
      PlacedAt(old(squares), mv, piece);
      if mv.isPromotion {
        PlacedAt(old(men), mv, man.(hasMoved := true));
        who := Promote(m);
        PlacedAgain(old(squares), mv, piece, who);
        PlacedAgain(old(men), mv, man.(hasMoved := true), Man(man.color, Queen, true));
      }
    }

    /** If the move castles, the rook comes along. */
    method CastleRook(m: Ply)
      requires Valid() && (m.move.isCastling ==> ValidPos(RookTo(m.move)) && RookFrom(m.move) != RookTo(m.move))
      modifies this`squares, this`men, RookOf(squares, m.move)
      ensures Valid()
      ensures squares == CastledOn(old(squares), m.move)
      ensures men == CastledMen(old(men), m.move)
      ensures forall p :: p in RookOf(old(squares), m.move) ==> p.hasMoved
    {
      SameKey(RookFrom(m.move));
      hide Valid, Shifted, ValidPos;
      if m.move.isCastling && RookFrom(m.move) in squares {
        MoveRook(RookFrom(m.move), RookTo(m.move), true);
      }
    }

    /** The piece moves, is promoted, and brings its rook if it castles. */
    method Relocate(m: Ply) returns (ghost who: Piece)
      requires Valid() && m.move.from in squares && ValidPos(m.move.to)
      requires m.move.isCastling ==> ValidPos(RookTo(m.move)) && RookFrom(m.move) != RookTo(m.move)
      modifies this`squares, this`men, this`castlingRights, MovedBy(squares, m.move), m`capturedPiece, m`promotedFrom
      ensures Valid() && old(squares)[m.move.from].hasMoved
      ensures m.capturedPiece == Nullable(At(old(squares), Victim(m.move)))
      ensures m.promotedFrom == if m.move.isPromotion then old(squares)[m.move.from] else old(m.promotedFrom)
      ensures if m.move.isPromotion then fresh(who) else who == old(squares)[m.move.from]
      ensures squares == MadeOn(old(squares), m.move, who)
      ensures men == Made(old(Position()), m.move).men && castlingRights == Made(old(Position()), m.move).rights
    {
      hide MovedBy, RookOf, Valid, Placed, ValidPos, At, Victim, Nullable, RightsAfter, Arriving, CastledOn, CastledMen, RookTo;
      MovedPieces(squares, m.move, squares[m.move.from]);
      who := PlaceMan(m);
      MovedPieces(old(squares), m.move, who);
      CastleRook(m);
    }

    /** What making a move leaves written in the move. */
    twostate predicate Noted(m: Ply)
      requires m.move.from in old(squares)
      reads this, m
    {
      var piece := old(squares)[m.move.from];
      && m.prevEp == old(epPos) && m.prevRights == old(castlingRights)
      && m.capturedPiece == Nullable(At(old(squares), Victim(m.move)))
      && m.promotedFrom == (if m.move.isPromotion then piece else old(m.promotedFrom))
      && m.prevHasMoved == old(squares[m.move.from].hasMoved)
    }

    method Note(m: Ply)
      requires m.move.from in squares
      modifies m`prevEp, m`prevRights, m`prevHasMoved
      ensures m.prevEp == epPos && m.prevRights == castlingRights && m.prevHasMoved == squares[m.move.from].hasMoved
    {
      m.prevEp, m.prevRights, m.prevHasMoved := epPos, castlingRights, squares[m.move.from].hasMoved;
    }

    method MovePiece(m: Ply) returns (ghost who: Piece)
      requires Valid() && m.move.from in squares && ValidPos(m.move.to)
      requires m.move.isCastling ==> ValidPos(RookTo(m.move)) && RookFrom(m.move) != RookTo(m.move)
      modifies this, MovedBy(squares, m.move), m
      ensures Valid() && Noted(m) && old(squares)[m.move.from].hasMoved
      ensures Position() == Made(old(Position()), m.move)
      ensures if m.move.isPromotion then fresh(who) else who == old(squares)[m.move.from]
      ensures squares == MadeOn(old(squares), m.move, who)
    {
      MadeEp(Position(), m.move);
      KnownPiece(m.move.from);
      hide Valid, ValidPos, At, Victim, Nullable, Made, MadeOn, RookFrom, RookTo;
      var piece := squares[m.move.from];
      Note(m);
      who := Relocate(m);
      var epDir := if piece.color == White then -1 else 1;
      epPos := if m.move.isDoublePush then Square(m.move.from.row + epDir, m.move.from.col) else NOWHERE;
    }

    method MakeMove(m: Ply) returns (ghost who: Option<Piece>)
      requires Valid() && ValidPos(m.move.to)
      requires m.move.isCastling ==> ValidPos(RookTo(m.move)) && RookFrom(m.move) != RookTo(m.move)
      modifies this, MovedBy(squares, m.move), m
      ensures Valid()
      ensures Position() == Made(old(Position()), m.move)
      ensures m.move.from !in old(squares) ==> squares == old(squares)
      ensures m.move.from in old(squares) ==>
        && Noted(m) && who.Some? && old(squares)[m.move.from].hasMoved
        && (if m.move.isPromotion then fresh(who.value) else who.value == old(squares)[m.move.from])
        && squares == MadeOn(old(squares), m.move, who.value)
    {
      hide Noted, Valid, Made, MadeOn, ValidPos, RookFrom, RookTo;
      MadeEp(Position(), m.move);
      SameKey(m.move.from);
      if m.move.from !in squares {
        m.prevEp, m.prevRights := epPos, castlingRights;
        return None;
      }
      ghost var stands := MovePiece(m);
      who := Some(stands);
    }

    /** The piece goes back, and so does what it captured. */
    method PutBack(m: Ply, piece: Piece)
      modifies this`squares
      ensures squares == Unplaced(old(squares), m.move, piece, MaybePiece(m.capturedPiece))
    {
      var mv := m.move;
      squares := squares - {mv.to};
      squares := squares[mv.from := piece];
      var at := if mv.isEnPassant then Square(mv.from.row, mv.to.col) else mv.to;
      squares := if m.capturedPiece != null then squares[at := m.capturedPiece] else squares - {at};
    }

    method Depart(m: Ply, piece: Piece)
      requires Valid() && ValidPos(m.move.from)
      requires piece in squares.Values ==> m.move.to in squares && squares[m.move.to] == piece
      requires m.capturedPiece != null ==>
        ValidPos(Victim(m.move)) && m.capturedPiece !in squares.Values && m.capturedPiece != piece
      modifies this`squares, this`men, piece, m.capturedPiece
      ensures Valid()
      ensures squares == Unplaced(old(squares), m.move, piece, MaybePiece(m.capturedPiece))
      ensures men == Unplaced(old(men), m.move, old(piece.Stands()).(hasMoved := m.prevHasMoved), old(ManOf(m.capturedPiece)))
    {
      hide Unplaced, ValidPos, OnBoard, SameSquares, Victim;
      var captured := m.capturedPiece;
      ghost var before := squares;
      ghost var man := piece.Stands().(hasMoved := m.prevHasMoved);
      ghost var taken := ManOf(captured);
      UnplacedPair(squares, men, m.move, piece, man, MaybePiece(captured), taken);
      PutBack(m, piece);
      piece.pos := m.move.from;
      piece.hasMoved := m.prevHasMoved;
      if captured != null {
        captured.pos := Victim(m.move);
      }
      men := Unplaced(men, m.move, man, taken);
      forall s | s in squares ensures squares[s].pos == s && squares[s].Stands() == men[s] {
        assert s != Victim(m.move) && s != m.move.from ==> squares[s] == before[s] && old(before[s].pos) == s;
      }
    }

    /** The piece that a move is to take back. */
    function Mover(m: Ply): Option<Piece>
      reads this`squares, m`promotedFrom
    {
      if m.move.isPromotion then MaybePiece(m.promotedFrom) else At(squares, m.move.to)
    }

    /** What is off the board and comes back is not on it. */
    ghost predicate CanReturn(m: Ply)
      reads this`squares, m
    {
      && ValidPos(m.move.from)
      && (m.move.isPromotion ==> m.promotedFrom !in squares.Values)
      && (m.capturedPiece != null ==>
            ValidPos(Victim(m.move)) && m.capturedPiece !in squares.Values && MaybePiece(m.capturedPiece) != Mover(m))
    }

    lemma MoverStands(m: Ply)
      requires Valid() && CanReturn(m)
      ensures !m.move.isPromotion ==> At(men, m.move.to) == if Mover(m).None? then None else Some(Mover(m).value.Stands())
      ensures Mover(m).Some? && Mover(m).value in squares.Values ==> m.move.to in squares && squares[m.move.to] == Mover(m).value
      ensures m.capturedPiece != null ==>
        ValidPos(Victim(m.move)) && m.capturedPiece !in squares.Values && MaybePiece(m.capturedPiece) != Mover(m)
    {
    }

    /** The pieces of `undo_move` go back. */
    method Restore(m: Ply, piece: Piece)
      requires Valid() && CanReturn(m) && Mover(m) == Some(piece)
      requires m.move.isCastling ==> ValidPos(RookFrom(m.move)) && RookFrom(m.move) != RookTo(m.move)
      modifies this`squares, this`men, squares.Values, piece, m.capturedPiece
      ensures Valid()
      ensures men == Undone(old(Position()), m.move, old(m.Record())).men
      ensures squares == UndoneOn(old(squares), m.move, piece, MaybePiece(m.capturedPiece))
    {
      MoverStands(m);
      ghost var before, captured := squares, MaybePiece(m.capturedPiece);
      UnplacedFrom(squares, m.move, piece, captured);
      hide Valid, Unplaced, Shifted, ValidPos, At, Victim, CanReturn, MaybePiece;
      Depart(m, piece);
      SameKey(RookTo(m.move));
      assert RookTo(m.move) in squares ==>
        squares[RookTo(m.move)] == piece || Some(squares[RookTo(m.move)]) == captured || squares[RookTo(m.move)] in before.Values;
      SomePiece(m.capturedPiece);
      if m.move.isCastling && RookTo(m.move) in squares {
        MoveRook(RookTo(m.move), RookFrom(m.move), false);
      }
    }

    method UndoMove(m: Ply)
      requires Valid() && CanReturn(m)
      requires m.move.isCastling ==> ValidPos(RookFrom(m.move)) && RookFrom(m.move) != RookTo(m.move)
      modifies this, squares.Values, m.capturedPiece, if m.move.isPromotion then {m.promotedFrom} else {}
      ensures Valid()
      ensures Position() == Undone(old(Position()), m.move, old(m.Record()))
      ensures squares == if old(Mover(m)).None? then old(squares)
                         else UndoneOn(old(squares), m.move, old(Mover(m)).value, MaybePiece(m.capturedPiece))
    {
      MoverStands(m);
      UndoneParts(Position(), m.move, m.Record());
      assert m.move.isPromotion ==> (m.Record().promotedFrom.None? <==> Mover(m).None?);
      hide Valid, ValidPos, CanReturn, Victim, RookFrom, RookTo, Undone, UndoneOn;
      var piece := if m.move.isPromotion then MaybePiece(m.promotedFrom) else At(squares, m.move.to);
      if piece.None? {
        return;
      }
      Restore(m, piece.value);
      epPos := m.prevEp;
      castlingRights := m.prevRights;
    }

    twostate lemma WereDistinct()
      requires old(Valid())
      ensures Distinct(old(squares)) && OnBoard(old(squares))
      ensures forall s :: s in old(squares) ==> s in old(men) && old(squares[s].Stands()) == old(men[s])
    {
    }

    lemma SameFits(m: Move)
      requires Valid() && Fits(men, m)
      ensures Fits(squares, m)
    {
      SameKey(m.from);
      SameKey(m.to);
      SameKey(RookFrom(m));
      SameKey(RookTo(m));
      hide Valid, ValidPos;
    }

    /** The captured piece is not one that the move changes. */
    lemma CapturedApart(m: Move)
      requires Valid() && Fits(squares, m) && Victim(m) in squares
      ensures squares[Victim(m)] !in MovedBy(squares, m)
    {
      hide ValidPos;
    }

    /** The record written in the move is the one the move calls for. */
    twostate lemma RecordIs(m: Ply)
      requires old(Valid()) && Fits(old(squares), m.move) && Noted(m)
      requires m.move.isPromotion ==> old(squares)[m.move.from].hasMoved
      requires m.Tidy()
      requires Victim(m.move) in old(squares) ==> old(squares)[Victim(m.move)].hasMoved == old(squares[Victim(m.move)].hasMoved)
      ensures m.move.from in old(men) && m.Record() == Recorded(old(Position()), m.move)
    {
    }

    lemma ValidShows()
      requires Valid()
      ensures Shows(squares, men) && OnBoard(squares) && OnBoard(men)
      ensures forall s :: s in squares ==> squares[s].pos == s
    {
      hide ValidPos;
    }

    /** What `MakeMove` leaves is enough for `UndoMove`. */
    twostate lemma UndoReady(m: Ply, new who: Piece)
      requires old(Valid()) && Fits(old(squares), m.move) && Noted(m)
      requires if m.move.isPromotion then who !in old(squares.Values) else who == old(squares)[m.move.from]
      requires squares == MadeOn(old(squares), m.move, who)
      ensures CanReturn(m)
      ensures Mover(m) == Some(old(squares)[m.move.from])
      ensures UndoneOn(squares, m.move, old(squares)[m.move.from], MaybePiece(m.capturedPiece)) == old(squares)
      ensures squares.Values <= old(squares.Values) + {who}
      ensures m.capturedPiece != null ==> m.capturedPiece in old(squares.Values)
    {
      WereDistinct();
      hide Valid, MadeOn, UndoneOn, ValidPos;
      OnUndone(old(squares), m.move, who);
      Leaves(old(squares), m.move, who);
    }

    /** Undoing the move from here leads back to where it was made. */
    twostate predicate Pending(m: Ply)
      reads this, m, m.capturedPiece, m.promotedFrom
    {
      && CanReturn(m) && Mover(m).Some?
      && (m.move.isCastling ==> ValidPos(RookFrom(m.move)) && RookFrom(m.move) != RookTo(m.move))
      && UndoneOn(squares, m.move, Mover(m).value, MaybePiece(m.capturedPiece)) == old(squares)
      && Undone(Position(), m.move, m.Record()) == old(Position())
    }

    lemma FitsCastling(m: Move)
      requires Fits(squares, m)
      ensures m.from in squares && ValidPos(m.to)
      ensures m.isCastling ==> ValidPos(RookFrom(m)) && ValidPos(RookTo(m)) && RookFrom(m) != RookTo(m)
    {
    }

    lemma PlayableReady(turn: Color, m: Move)
      requires Valid() && Inv(Position(), turn) && Playable(Position(), turn, m)
      ensures Fits(squares, m)
      ensures m.from in men && Undone(Made(Position(), m), m, Recorded(Position(), m)) == Position()
      ensures Victim(m) in squares ==> squares[Victim(m)] !in MovedBy(squares, m)
    {
      hide Inv, Playable, Made, Undone, Recorded, Valid, MovedBy, Victim, Fits;
      PlayableFits(Position(), turn, m);
      UndoRestores(Position(), turn, m);
      SameFits(m);
      if Victim(m) in squares {
        CapturedApart(m);
      }
    }

    /** Makes a move that can be played, and says how it can be undone. */
    method Advance(m: Ply, ghost turn: Color)
      requires Valid() && Inv(Position(), turn) && Playable(Position(), turn, m.move) && m.Tidy()
      modifies this, squares.Values, m
      ensures Valid() && Pending(m) && m.Tidy()
      ensures Position() == Made(old(Position()), m.move)
      ensures forall p :: p in squares.Values ==> p in old(squares.Values) || fresh(p)
      ensures m.capturedPiece != null ==> m.capturedPiece in old(squares.Values)
      ensures m.promotedFrom != null ==> m.promotedFrom in old(squares.Values)
    {
      PlayableReady(turn, m.move);
      FitsCastling(m.move);
      MovedInside(squares, m.move);
      hide Inv, Playable, Valid, Made, Undone, Recorded, Fits, MovedBy, MadeOn, UndoneOn, Victim, CanReturn, ValidPos;
      var who := MakeMove(m);
      UndoReady(m, who.value);
      RecordIs(m);
    }
  }
}
