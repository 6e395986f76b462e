/** Where the men go: the rules about moving, castling, promoting and setting up,
    written out square by square. */
module ChessLaws {
  import opened ChessRules
  import opened ChessMoves
  import opened ChessLegal
  import opened ChessGame
  import opened Wrappers

  function HomeRow(c: Color): int {
    if c == White then 7 else 0
  }

  // ---- Castling, article 3.8 ----

  /** The columns of the rook's corner, and of the king's and the rook's squares afterwards. */
  function CornerCol(kingside: bool): int {
    if kingside then 7 else 0
  }

  function KingCol(kingside: bool): int {
    if kingside then 6 else 2
  }

  function RookCol(kingside: bool): int {
    if kingside then 5 else 3
  }

  predicate BetweenCols(a: int, x: int, b: int) {
    a < x < b || b < x < a
  }

  /** A man of the other side attacks the square. */
  ghost predicate AttackedBy(men: Men, s: Square, c: Color) {
    exists f :: f in men && men[f].color != c && Attacks(men, f, s)
  }

  /** King and rook have not moved, the squares between them are empty, and no man of
      the other side attacks the king's square, the square it passes or the one it
      arrives on. */
  ghost predicate LawfulCastle(men: Men, c: Color, kingside: bool) {
    var r := HomeRow(c);
    && Square(r, 4) in men && men[Square(r, 4)] == Man(c, King, false)
    && Square(r, CornerCol(kingside)) in men && men[Square(r, CornerCol(kingside))] == Man(c, Rook, false)
    && (forall x :: BetweenCols(4, x, CornerCol(kingside)) ==> Square(r, x) !in men)
    && forall x :: x == 4 || x == KingCol(kingside) || BetweenCols(4, x, KingCol(kingside))
         ==> !AttackedBy(men, Square(r, x), c)
  }

  /** An enemy pawn attacks the square the king passes or the one it arrives on. */
  ghost predicate GuardedByPawn(men: Men, c: Color, kingside: bool) {
    exists x, f :: (x == KingCol(kingside) || BetweenCols(4, x, KingCol(kingside)))
      && f in men && men[f].color != c && men[f].kind == Pawn && Attacks(men, f, Square(HomeRow(c), x))
  }

  /** King and rook stand where castling leaves them, and nothing else has changed. */
  ghost predicate Castled(before: Men, after: Men, c: Color, kingside: bool) {
    var r := HomeRow(c);
    forall s :: At(after, s) ==
      if s == Square(r, KingCol(kingside)) then Some(Man(c, King, true))
      else if s == Square(r, RookCol(kingside)) then Some(Man(c, Rook, true))
      else if s == Square(r, 4) || s == Square(r, CornerCol(kingside)) then None
      else At(before, s)
  }

  ghost predicate CastlingListed(p: Position, c: Color, kingside: bool, m: Move) {
    m in LegalMoves(p, c) && m.isCastling && m.from == Square(HomeRow(c), 4) && m.to == Square(HomeRow(c), KingCol(kingside))
  }

  lemma MoveIs(c: Color, kingside: bool)
    ensures var m := CastleMove(c, kingside);
            && m.isCastling && m.from == Square(HomeRow(c), 4) && m.to == Square(HomeRow(c), KingCol(kingside))
            && RookFrom(m) == Square(HomeRow(c), CornerCol(kingside)) && RookTo(m) == Square(HomeRow(c), RookCol(kingside))
  {
  }

  /** A castling move that is listed moves the king two columns from its square, and
      the rook from that side's corner to the square the king has crossed. */
  lemma CastlingMoves(p: Position, c: Color, m: Move)
    requires Inv(p, c) && m in LegalMoves(p, c) && m.isCastling
    ensures exists kingside :: CastlingListed(p, c, kingside, m) && Castled(p.men, Made(p, m).men, c, kingside)
  {
    CastlingPairsOwnMen(p, c, m);
    var kingside :| m == CastleMove(c, kingside) && CastlingPair(p.men, c, kingside);
    MoveIs(c, kingside);
    CastlingMade(p, c, m);
    CastledExactly(p, c, kingside, m);
    assert CastlingListed(p, c, kingside, m);
  }

  lemma CastledExactly(p: Position, c: Color, kingside: bool, m: Move)
    requires IsCastling(p.men, c, m) && m == CastleMove(c, kingside)
    ensures Castled(p.men, Made(p, m).men, c, kingside)
  {
    MoveIs(c, kingside);
    CastlingMade(p, c, m);
    PlacedAt(p.men, m, Man(c, King, true));
    var placed := Placed(p.men, m, Man(c, King, true));
    hide Placed, Made, IsCastling, CastleMove, HomeRow;
    assert !m.isEnPassant ==> forall s :: s != m.to && s != m.from ==> At(placed, s) == At(p.men, s);
  }

  lemma AttackedAlike(men: Men, s: Square, c: Color)
    ensures AttackedBy(men, s, c) <==> Attacked(men, s, Opposite(c))
  {
    hide Attacks;
  }

  lemma SquaresAlike(c: Color, kingside: bool)
    ensures KingHome(c) == Square(HomeRow(c), 4) && Corner(c, kingside) == Square(HomeRow(c), CornerCol(kingside))
    ensures forall s :: s in Between(c, kingside) <==> s.row == HomeRow(c) && BetweenCols(4, s.col, CornerCol(kingside))
    ensures forall s :: s in Transit(c, kingside) <==>
      s.row == HomeRow(c) && (s.col == KingCol(kingside) || BetweenCols(4, s.col, KingCol(kingside)))
  {
  }

  lemma LawfulIsFide(p: Position, c: Color, kingside: bool)
    ensures LawfulCastle(p.men, c, kingside) <==> FideCastle(p, c, kingside)
  {
    SquaresAlike(c, kingside);
    hide Between, Transit, Attacked, AttackedBy, Opposite;
    forall s ensures AttackedBy(p.men, s, c) <==> Attacked(p.men, s, Opposite(c)) {
      AttackedAlike(p.men, s, c);
    }
    var r := HomeRow(c);
    assert forall x :: Square(r, x) in Between(c, kingside) <==> BetweenCols(4, x, CornerCol(kingside));
    assert forall x :: Square(r, x) in Transit(c, kingside) <==> x == KingCol(kingside) || BetweenCols(4, x, KingCol(kingside));
    if FideCastle(p, c, kingside) {
      forall x | BetweenCols(4, x, CornerCol(kingside)) ensures Square(r, x) !in p.men {
        assert Square(r, x) in Between(c, kingside);
      }
    }
    if LawfulCastle(p.men, c, kingside) {
      forall s | s in Between(c, kingside) ensures s !in p.men {
        assert s == Square(r, s.col);
      }
      forall t | t in Transit(c, kingside) ensures !Attacked(p.men, t, Opposite(c)) {
        assert t == Square(r, t.col);
      }
    }
  }

  lemma GuardedAlike(men: Men, c: Color, kingside: bool)
    ensures GuardedByPawn(men, c, kingside) <==> PawnGuards(men, c, kingside)
  {
    SquaresAlike(c, kingside);
    hide Transit, Attacks;
    if GuardedByPawn(men, c, kingside) {
      var x, f :| (x == KingCol(kingside) || BetweenCols(4, x, KingCol(kingside)))
        && f in men && men[f].color != c && men[f].kind == Pawn && Attacks(men, f, Square(HomeRow(c), x));
      assert Square(HomeRow(c), x) in Transit(c, kingside);
    }
    if PawnGuards(men, c, kingside) {
      var t, f :| t in Transit(c, kingside) && f in men && men[f].color == Opposite(c) && men[f].kind == Pawn && Attacks(men, f, t);
      assert t == Square(HomeRow(c), t.col);
    }
  }

  lemma ListedAlike(p: Position, c: Color, kingside: bool)
    requires Inv(p, c)
    ensures (exists m :: CastlingListed(p, c, kingside, m)) <==> MayCastle(p, c, kingside)
  {
    MoveIs(c, kingside);
    if MayCastle(p, c, kingside) {
      MayCastleListed(p, c, kingside);
    }
    if m :| CastlingListed(p, c, kingside, m) {
      OnlyByCastling(p, c, kingside, m);
    }
  }

  lemma MayCastleListed(p: Position, c: Color, kingside: bool)
    requires MayCastle(p, c, kingside)
    ensures CastlingListed(p, c, kingside, CastleMove(c, kingside))
  {
    MoveIs(c, kingside);
    hide MayCastle, RawFrom, Kept;
  }

  lemma OnlyByCastling(p: Position, c: Color, kingside: bool, m: Move)
    requires Inv(p, c) && CastlingListed(p, c, kingside, m)
    ensures MayCastle(p, c, kingside)
  {
    hide RawFrom, Kept, MayCastle, IsRaw, OneKing, PawnsPromoted, EpOk, RightsKept, ChessLegal.Castles;
    KeptMeans(p, c, RawFrom(p, c, 0), m);
    CastlesMean(p, c, m);
    RawListed(p, c, m);
    if IsRaw(p, m) {
      RawShape(p, m);
    }
    var side :| m == CastleMove(c, side) && MayCastle(p, c, side);
    MoveIs(c, side);
  }

  /** What the Laws allow is what is listed and not guarded by a pawn. */
  lemma CastlingLawful(p: Position, c: Color, kingside: bool)
    requires Inv(p, c)
    ensures LawfulCastle(p.men, c, kingside) <==>
      (exists m :: CastlingListed(p, c, kingside, m)) && !GuardedByPawn(p.men, c, kingside)
  {
    LawfulIsFide(p, c, kingside);
    GuardedAlike(p.men, c, kingside);
    ListedAlike(p, c, kingside);
    hide MayCastle, FideCastle, Inv, LawfulCastle, GuardedByPawn, PawnGuards, CastlingListed;
    CastlingExact(p, c, kingside);
  }

  // ---- Any other move ----

  /** A pawn goes diagonally to an empty square. */
  predicate InPassing(men: Men, m: Move) {
    m.from in men && men[m.from].kind == Pawn && m.from.col != m.to.col && m.to !in men
  }

  /** The man that went there: a pawn on a last row has become a queen. */
  function Landed(man: Man, row: int): Man {
    Man(man.color, if man.kind == Pawn && (row == 0 || row == 7) then Queen else man.kind, true)
  }

  /** The mover stands on its target, its square is empty, a pawn taken in passing is
      gone from the mover's row, and nothing else has changed. */
  ghost predicate Moved(before: Men, after: Men, m: Move)
    requires m.from in before
  {
    forall s :: At(after, s) ==
      if s == m.to then Some(Landed(before[m.from], m.to.row))
      else if s == m.from then None
      else if InPassing(before, m) && s == Square(m.from.row, m.to.col) then None
      else At(before, s)
  }

  /** The square a pawn has passed on its double step, or none. */
  function Passed(man: Man, m: Move): Square {
    if man.kind == Pawn && (m.to.row - m.from.row == 2 || m.to.row - m.from.row == -2)
    then Square((m.from.row + m.to.row) / 2, m.from.col) else Square(-1, -1)
  }

  /** Castling is over for a side with its king's move, and on one wing with a rook's
      move from that corner. */
  predicate GivesUp(man: Man, from: Square, c: Color, kingside: bool) {
    || (man.kind == King && man.color == c)
    || (man.kind == Rook && from == Square(HomeRow(c), CornerCol(kingside)))
  }

  function Bit(c: Color, kingside: bool): bv4 {
    if c == White then (if kingside then 1 else 2) else (if kingside then 4 else 8)
  }

  lemma PawnFlags(p: Position, turn: Color, m: Move)
    requires OnBoard(p.men) && EpOk(p, turn) && IsRaw(p, m) && p.men[m.from].color == turn
    ensures m.isEnPassant <==> InPassing(p.men, m)
    ensures m.isPromotion <==> p.men[m.from].kind == Pawn && (m.to.row == 0 || m.to.row == 7)
    ensures m.isDoublePush <==> p.men[m.from].kind == Pawn && (m.to.row - m.from.row == 2 || m.to.row - m.from.row == -2)
    ensures m.isDoublePush ==> Square(m.from.row + Forward(turn), m.from.col) == Passed(p.men[m.from], m)
    ensures !m.isCastling
  {
    hide Attacks;
  }

  lemma RightsLost(rights: bv4, man: Man, from: Square, c: Color, kingside: bool)
    ensures (RightsAfter(rights, man, from) & Bit(c, kingside) != 0) <==>
      (rights & Bit(c, kingside) != 0) && !GivesUp(man, from, c, kingside)
  {
  }

  lemma RawMoved(p: Position, turn: Color, m: Move)
    requires OnBoard(p.men) && EpOk(p, turn) && IsRaw(p, m) && p.men[m.from].color == turn
    ensures Moved(p.men, Made(p, m).men, m)
  {
    PawnFlags(p, turn, m);
    var man := p.men[m.from];
    PlacedAt(p.men, m, Arriving(man, m));
    hide IsRaw, EpOk, Placed, OnBoard, InPassing;
    assert Arriving(man, m) == Landed(man, m.to.row);
  }

  /** What a legal move does to the board, to the square it leaves to be taken in
      passing, and to the rights to castle. */
  lemma MoveEffects(p: Position, c: Color, m: Move)
    requires Inv(p, c) && m in LegalMoves(p, c)
    ensures m.from in p.men && p.men[m.from].color == c
    ensures !m.isCastling ==> Moved(p.men, Made(p, m).men, m)
    ensures Made(p, m).ep == Passed(p.men[m.from], m)
    ensures forall side, kingside :: (Made(p, m).rights & Bit(side, kingside) != 0) <==>
      (p.rights & Bit(side, kingside) != 0) && !GivesUp(p.men[m.from], m.from, side, kingside)
  {
    hide LegalMoves, Attacks, OnBoard, UnmovedAtHome, OneKing, PawnsPromoted, RightsKept, EpOk, IsRaw, Bit, GivesUp, RightsAfter, Moved;
    if m.isCastling {
      CastlingPairsOwnMen(p, c, m);
      NoDoublePush(p, c, m);
    } else {
      LegalMeaning(p, c, m);
      RawFromMen(p, m);
      RawMoved(p, c, m);
      PawnFlags(p, c, m);
    }
    forall side, kingside {
      RightsLost(p.rights, p.men[m.from], m.from, side, kingside);
    }
  }

  lemma NoDoublePush(p: Position, c: Color, m: Move)
    requires IsCastling(p.men, c, m)
    ensures !m.isDoublePush
  {
  }

  // ---- Pawns, article 3.7 ----

  /** The direction in which a colour's pawns go, and the row they start on. */
  function Up(c: Color): int {
    if c == White then -1 else 1
  }

  function PawnRow(c: Color): int {
    if c == White then 6 else 1
  }

  /** Forward one if it is empty, two from the start row if both are, and diagonally
      onto an enemy or the square just passed. */
  predicate PawnMay(p: Position, from: Square, to: Square)
    requires from in p.men
  {
    var c := p.men[from].color;
    || (to == Square(from.row + Up(c), from.col) && to !in p.men)
    || (to == Square(from.row + 2 * Up(c), from.col) && from.row == PawnRow(c)
        && Square(from.row + Up(c), from.col) !in p.men && to !in p.men)
    || (to.row == from.row + Up(c) && (to.col == from.col - 1 || to.col == from.col + 1)
        && ((to in p.men && p.men[to].color != c) || to == p.ep))
  }

  lemma PawnMoves(p: Position, from: Square, to: Square)
    requires OnBoard(p.men) && from in p.men && p.men[from].kind == Pawn
    ensures (exists m :: m in RawMoves(p, from) && m.to == to) <==>
      0 <= to.row < 8 && 0 <= to.col < 8 && PawnMay(p, from, to)
  {
    forall m ensures m in RawMoves(p, from) <==> m.from == from && IsRaw(p, m) {
      RawMeaning(p, from, m);
    }
    hide RawMoves;
    var c := p.men[from].color;
    assert PawnMay(p, from, to) && ValidPos(to) ==>
      IsRaw(p, PawnStep(from, to, c)) || IsRaw(p, DoublePush(from, to)) || IsRaw(p, EnPassant(from, to));
  }

  // ---- The first position ----

  const BOARD: seq<string> := [
    "rnbqkbnr",
    "pppppppp",
    "........",
    "........",
    "........",
    "........",
    "PPPPPPPP",
    "RNBQKBNR"]

  function Letter(man: Option<Man>): char {
    match man
    case None => '.'
    case Some(Man(White, k, _)) => (match k case Pawn => 'P' case Knight => 'N' case Bishop => 'B' case Rook => 'R' case Queen => 'Q' case King => 'K')
    case Some(Man(Black, k, _)) => (match k case Pawn => 'p' case Knight => 'n' case Bishop => 'b' case Rook => 'r' case Queen => 'q' case King => 'k')
  }

  lemma FirstPosition(r: nat, x: nat)
    requires r < 8 && x < 8
    ensures |BOARD| == 8 && |BOARD[r]| == 8
    ensures var man := At(Initial().men, Square(r, x)); Letter(man) == BOARD[r][x] && (man.Some? ==> !man.value.hasMoved)
    ensures Initial().ep == Square(-1, -1) && Initial().rights == 15 && TurnAt(0) == White
  {
    InitialMen();
    var s := Square(r, x);
    assert r < 2 || r >= 6 ==> s in HomeSquares();
    hide HomeSquares;
  }
}
