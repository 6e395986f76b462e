/** The game controller: check, legal moves and automatic play, on the board. */
module ChessPlay {
  import opened ChessRules
  import opened ChessMoves
  import opened ChessLegal
  import opened ChessGame
  import opened ChessBoard
  import opened Wrappers

  lemma {:induction false} TargetsConcat(a: seq<Move>, b: seq<Move>)
    ensures Targets(a + b) == Targets(a) + Targets(b)
  {
    assert forall m :: m in a + b <==> m in a || m in b;
  }

  lemma TargetsOf(plies: seq<Ply>)
    ensures (set m | m in plies :: m.move.to) == Targets(Moves(plies))
  {
    var ms := Moves(plies);
    assert forall i :: 0 <= i < |plies| ==> ms[i] == plies[i].move;
    assert forall m :: m in plies ==> m.move in ms;
    assert forall v :: v in ms ==> exists i :: 0 <= i < |plies| && plies[i].move == v;
  }

  lemma RawFromStep(p: Position, c: Color, i: nat)
    requires i < 64
    ensures RawFrom(p, c, i) ==
      if SquareAt(i) in p.men && p.men[SquareAt(i)].color == c then ChessRules.RawMoves(p, SquareAt(i)) + RawFrom(p, c, i + 1)
      else RawFrom(p, c, i + 1)
  {
    hide SquareAt, ChessRules.RawMoves;
  }

  lemma AttackedTargets(p: Position, side: Color)
    ensures AttackedSquares(p, side) == Targets(RawFrom(p, side, 0))
  {
  }

  lemma AllTargets(p: Position, side: Color, i: nat)
    requires i >= 64
    ensures Targets(RawFrom(p, side, i)) == {}
  {
  }

  lemma MovesOfNone()
    ensures Moves([]) == []
  {
  }

  lemma MovesOfOne(m: Ply)
    ensures Moves([m]) == [m.move]
  {
  }

  lemma MoveListed(plies: seq<Ply>, m: Ply)
    requires m in plies
    ensures m.move in Moves(plies)
  {
    var j :| 0 <= j < |plies| && plies[j] == m;
    MoveAt(plies, j);
  }

  lemma MoveAt(plies: seq<Ply>, j: nat)
    requires j < |plies|
    ensures Moves(plies)[j] == plies[j].move
  {
  }

  lemma KeptStep(p: Position, c: Color, raw: seq<Ply>, j: nat)
    requires j < |raw|
    ensures var all := Moves(raw);
            Kept(p, c, all[j..]) == (if InCheck(Made(p, raw[j].move), c) then [] else [raw[j].move]) + Kept(p, c, all[j + 1..])
  {
    hide Made, InCheck;
    var all := Moves(raw);
    assert all[j..][1..] == all[j + 1..];
  }

  lemma KeptNone(p: Position, c: Color, all: seq<Move>)
    ensures Kept(p, c, all[|all|..]) == []
  {
  }

  lemma StandingStep(men: Men, c: Color, i: nat)
    requires i < 64
    ensures Standing(men, c, i) ==
      (if SquareAt(i) in men && men[SquareAt(i)].color == c then [SquareAt(i)] else []) + Standing(men, c, i + 1)
  {
    hide SquareAt;
  }

  lemma StandingNone(men: Men, c: Color)
    ensures Standing(men, c, 64) == []
  {
  }

  predicate PiecesAt(squares: map<Square, Piece>, pieces: seq<Piece>, spots: seq<Square>) {
    |pieces| == |spots| && forall j :: 0 <= j < |spots| ==> spots[j] in squares && pieces[j] == squares[spots[j]]
  }

  predicate KingFree(men: Men, c: Color) {
    var king := FindKing(men, c, 0);
    king.Some? && king.value in men && !men[king.value].hasMoved
  }

  predicate RookFree(men: Men, corner: Square) {
    corner in men && men[corner].kind == Rook && !men[corner].hasMoved
  }

  predicate CastleHome(p: Position, c: Color, kingside: bool) {
    && KingFree(p.men, c) && RookFree(p.men, Square(BackRow(c), if kingside then 7 else 0))
    && p.rights & SideMask(c, kingside) != 0
    && EmptyColumns(p.men, BackRow(c), if kingside then [5, 6] else [1, 2, 3])
  }

  lemma CastleTests(p: Position, c: Color, kingside: bool)
    ensures var attacked := AttackedSquares(p, Opposite(c));
            MayCastle(p, c, kingside) <==>
              && CastleHome(p, c, kingside) && !InCheck(p, c)
              && Square(BackRow(c), if kingside then 5 else 3) !in attacked
              && Square(BackRow(c), if kingside then 6 else 2) !in attacked
  {
    BetweenEmpty(p.men, c, kingside);
    hide AttackedSquares, InCheck, FindKing, SideMask, Between, EmptyColumns;
    var attacked := AttackedSquares(p, Opposite(c));
    assert Transit(c, kingside) !! attacked <==>
      && Square(BackRow(c), if kingside then 5 else 3) !in attacked
      && Square(BackRow(c), if kingside then 6 else 2) !in attacked;
  }

  predicate EmptyColumns(men: Men, row: int, cols: seq<int>) {
    forall c :: c in cols ==> Square(row, c) !in men
  }

  lemma BetweenEmpty(men: Men, c: Color, kingside: bool)
    ensures EmptyColumns(men, BackRow(c), if kingside then [5, 6] else [1, 2, 3]) <==> Between(c, kingside) !! men.Keys
  {
    if kingside {
      assert 5 in [5, 6] && 6 in [5, 6];
    } else {
      assert 1 in [1, 2, 3] && 2 in [1, 2, 3] && 3 in [1, 2, 3];
    }
  }

  /** One piece's share of the legal moves. */
  lemma KeptOfPiece(p: Position, c: Color, spots: seq<Square>, i: nat)
    requires i < |spots| && spots[i] in p.men
    ensures Kept(p, c, RawOf(p, spots[i..])) ==
      Kept(p, c, ChessRules.RawMoves(p, spots[i])) + Kept(p, c, RawOf(p, spots[i + 1..]))
  {
    hide Kept, ChessRules.RawMoves;
    assert spots[i..][1..] == spots[i + 1..];
    KeptConcat(p, c, ChessRules.RawMoves(p, spots[i]), RawOf(p, spots[i + 1..]));
  }

  lemma KeptOfNone(p: Position, c: Color, spots: seq<Square>)
    ensures Kept(p, c, RawOf(p, spots[|spots|..])) == []
  {
  }

  lemma SpotCount(squares: map<Square, Piece>, pieces: seq<Piece>, spots: seq<Square>)
    requires PiecesAt(squares, pieces, spots)
    ensures |pieces| == |spots| && spots[0..] == spots
  {
  }

  lemma SpotKnown(squares: map<Square, Piece>, pieces: seq<Piece>, spots: seq<Square>, i: nat)
    requires PiecesAt(squares, pieces, spots) && i < |spots|
    ensures i < |pieces| && spots[i] in spots && spots[i] in squares && pieces[i] == squares[spots[i]]
  {
  }

  datatype Outcome = WhiteWins | BlackWins | Draw

  const MAX_MOVES: nat := 500

  predicate Checkmated(p: Position, c: Color) {
    InCheck(p, c) && LegalMoves(p, c) == []
  }

  predicate Stalemated(p: Position, c: Color) {
    !InCheck(p, c) && LegalMoves(p, c) == []
  }

  /** What a decided game looks like, for the side to move. */
  predicate Decided(outcome: Outcome, p: Position, turn: Color) {
    match outcome
    case WhiteWins => turn == Black && Checkmated(p, turn)
    case BlackWins => turn == White && Checkmated(p, turn)
    case Draw => Stalemated(p, turn)
  }

  lemma GameBegins()
    ensures IsGame([Initial()], [])
  {
    hide Initial;
  }

  lemma GameGoesOn(ps: seq<Position>, ms: seq<Move>, m: Move)
    requires IsGame(ps, ms) && m in LegalMoves(ps[|ms|], TurnAt(|ms|))
    ensures IsGame(ps + [Made(ps[|ms|], m)], ms + [m])
  {
    hide LegalMoves, Made, Initial, TurnAt;
  }

  lemma PickedMove(p: Position, c: Color, legal: seq<Ply>, idx: nat)
    requires Inv(p, c) && Moves(legal) == LegalMoves(p, c) && idx < |legal|
    ensures legal[idx] in legal && legal[idx].move in LegalMoves(p, c) && Playable(p, c, legal[idx].move)
  {
    hide Inv, LegalMoves, Playable;
    MoveAt(legal, idx);
    LegalPlayable(p, c, legal[idx].move);
  }

  lemma NextTurn(k: nat)
    ensures TurnAt(k + 1) == Opposite(TurnAt(k))
  {
  }

  class Game {
    const board: Board
    var currentTurn: Color
    var moveCount: nat

    constructor ()
      ensures board.Valid() && board.Position() == Initial() && fresh(board)
      ensures forall p :: p in board.squares.Values ==> fresh(p)
      ensures currentTurn == White && moveCount == 0
    {
      board := new Board();
      currentTurn, moveCount := White, 0;
    }

    method FindKing(color: Color) returns (king: Option<Piece>)
      requires Shows(board.squares, board.men)
      ensures var k := ChessLegal.FindKing(board.men, color, 0);
              (king.Some? <==> k.Some?) && (k.Some? ==> k.value in board.squares && king.value == board.squares[k.value])
    {
      hide SquareAt;
      var i := 0;
      while i < 64
        invariant i <= 64 && ChessLegal.FindKing(board.men, color, i) == ChessLegal.FindKing(board.men, color, 0)
      {
        var s := SquareAt(i);
        if s in board.squares && board.squares[s].color == color && board.squares[s].kind == King {
          return Some(board.squares[s]);
        }
        i := i + 1;
      }
      return None;
    }

    method AttackedSquares(side: Color) returns (attacked: set<Square>)
      requires board.Valid()
      ensures attacked == ChessLegal.AttackedSquares(board.Position(), side)
    {
      ghost var p := board.Position();
      board.ValidShows();
      hide SquareAt, ChessRules.RawMoves, Targets, ValidPos, RawFrom, Moves, ChessLegal.AttackedSquares, Shows;
      assert ChessLegal.AttackedSquares(p, side) == Targets(RawFrom(p, side, 0)) by { AttackedTargets(p, side); }
      attacked := {};
      var i := 0;
      while i < 64
        invariant i <= 64 && attacked + Targets(RawFrom(p, side, i)) == Targets(RawFrom(p, side, 0))
      {
        var s := SquareAt(i);
        RawFromStep(p, side, i);
        ShownAt(board.squares, board.men, s);
        if s in board.squares && board.squares[s].color == side {
          var moves := board.squares[s].RawMoves(board);
          TargetsOf(moves);
          TargetsConcat(Moves(moves), RawFrom(p, side, i + 1));
          attacked := attacked + (set m | m in moves :: m.move.to);
        }
        i := i + 1;
      }
      AllTargets(p, side, i);
    }

    method InCheck(color: Color) returns (b: bool)
      requires board.Valid()
      ensures b == ChessLegal.InCheck(board.Position(), color)
    {
      board.ValidShows();
      hide ChessLegal.FindKing, ChessLegal.AttackedSquares, Shows;
      var king := FindKing(color);
      if king.None? {
        return false;
      }
      var attacked := AttackedSquares(Opposite(color));
      b := king.value.pos in attacked;
    }

    /** The board is as it was: the same pieces, on the same squares, as they stood. */
    twostate predicate Restored()
      reads board, board.squares.Values
    {
      && board.squares == old(board.squares) && board.Position() == old(board.Position())
      && forall p :: p in board.squares.Values ==> p.pos == old(p.pos) && p.hasMoved == old(p.hasMoved)
    }

    twostate lemma RestoredFrom()
      requires old(board.Valid()) && board.Valid()
      requires board.squares == old(board.squares) && board.Position() == old(board.Position())
      ensures Restored()
    {
    }

    /** What `legal_moves` does to each move: make it, ask whether the mover is in
        check, and take it back. */
    method TryMove(m: Ply, color: Color) returns (safe: bool)
      requires board.Valid() && Inv(board.Position(), color) && Playable(board.Position(), color, m.move)
      requires m.Tidy()
      modifies board, board.squares.Values, m
      ensures board.Valid() && Restored() && m.Tidy()
      ensures safe == !ChessLegal.InCheck(Made(old(board.Position()), m.move), color)
    {
      hide Inv, Playable, Made, ChessLegal.InCheck, Undone, UndoneOn, MaybePiece, ValidPos;
      board.Advance(m, color);
      var check := InCheck(color);
      board.UndoMove(m);
      RestoredFrom();
      safe := !check;
    }

    /** Keeps the moves that do not leave the mover in check. */
    method KeepSafe(raw: seq<Ply>, color: Color) returns (safe: seq<Ply>)
      requires board.Valid() && Inv(board.Position(), color)
      requires forall m :: m in raw ==> m.Tidy() && Playable(board.Position(), color, m.move)
      modifies board, board.squares.Values, raw
      ensures board.Valid() && Restored()
      ensures forall m :: m in raw ==> m.Tidy()
      ensures forall m :: m in safe ==> m in raw
      ensures Moves(safe) == Kept(old(board.Position()), color, Moves(raw))
    {
      hide Inv, Playable, Made, ChessLegal.InCheck, Kept, Moves, Board.Valid;
      ghost var p, all, squares := board.Position(), Moves(raw), board.squares;
      safe := [];
      MovesOfNone();
      var j := 0;
      while j < |raw|
        invariant j <= |raw| && board.Valid() && board.squares == squares && board.Position() == p
        invariant forall m :: m in raw ==> m.Tidy()
        invariant forall m :: m in safe ==> m in raw
        invariant Moves(safe) + Kept(p, color, all[j..]) == Kept(p, color, all)
      {
        var m := raw[j];
        KeptStep(p, color, raw, j);
        var ok := TryMove(m, color);
        if ok {
          MovesConcat(safe, [m]);
          MovesOfOne(m);
          safe := safe + [m];
        }
        j := j + 1;
      }
      KeptNone(p, color, all);
      RestoredFrom();
    }

    /** The pieces of one colour, row by row. */
    method PiecesOf(color: Color, ghost men: Men) returns (pieces: seq<Piece>)
      requires Shows(board.squares, men)
      ensures PiecesAt(board.squares, pieces, Standing(men, color, 0))
    {
      hide SquareAt, Shows, Standing;
      pieces := [];
      ghost var spots: seq<Square> := [];
      var i := 0;
      while i < 64
        invariant i <= 64 && PiecesAt(board.squares, pieces, spots)
        invariant spots + Standing(men, color, i) == Standing(men, color, 0)
      {
        var s := SquareAt(i);
        StandingStep(men, color, i);
        ShownAt(board.squares, men, s);
        if s in board.squares && board.squares[s].color == color {
          pieces, spots := pieces + [board.squares[s]], spots + [s];
        }
        i := i + 1;
      }
      StandingNone(men, color);
    }

    /** The raw moves of one piece that are safe. */
    method SafeMoves(piece: Piece, color: Color) returns (safe: seq<Ply>)
      requires board.Valid() && Inv(board.Position(), color) && piece.color == color
      requires piece.pos in board.squares && board.squares[piece.pos] == piece
      modifies board, board.squares.Values
      ensures board.Valid() && Restored()
      ensures forall m :: m in safe ==> fresh(m) && m.Tidy()
      ensures old(piece.pos) in old(board.men)
      ensures Moves(safe) ==
        Kept(old(board.Position()), color, ChessRules.RawMoves(old(board.Position()), old(piece.pos)))
    {
      board.ValidShows();
      hide Inv, Made, ChessLegal.InCheck, Kept, Moves, Board.Valid, Shows, ChessRules.RawMoves, IsRaw, IsCastling;
      ShownAt(board.squares, board.men, piece.pos);
      var raw := piece.RawMoves(board);
      forall m | m in raw ensures Playable(board.Position(), color, m.move) {
        MoveListed(raw, m);
        RawMeaning(board.Position(), piece.pos, m.move);
      }
      assert forall i :: 0 <= i < |raw| ==> raw[i] in raw && fresh(raw[i]);
      safe := KeepSafe(raw, color);
    }

    method SquaresEmpty(row: int, cols: seq<int>) returns (empty: bool)
      requires Shows(board.squares, board.men)
      ensures empty <==> EmptyColumns(board.men, row, cols)
    {
      var j := 0;
      while j < |cols|
        invariant j <= |cols| && forall k :: 0 <= k < j ==> Square(row, cols[k]) !in board.men
      {
        if Square(row, cols[j]) in board.squares {
          assert cols[j] in cols;
          return false;
        }
        j := j + 1;
      }
      return true;
    }

    method KingUnmoved(color: Color) returns (b: bool)
      requires board.Valid()
      ensures b == KingFree(board.men, color)
    {
      board.ValidShows();
      hide ChessLegal.FindKing, Shows, ValidPos;
      var king := FindKing(color);
      b := king.Some? && !king.value.hasMoved;
    }

    method RookUnmoved(corner: Square) returns (b: bool)
      requires board.Valid()
      ensures b == RookFree(board.men, corner)
    {
      board.KnownPiece(corner);
      hide Board.Valid;
      b := corner in board.squares && board.squares[corner].kind == Rook && !board.squares[corner].hasMoved;
    }

    /** The king and the rook have not moved, and nothing stands between them. */
    method HomeReady(color: Color, kingside: bool) returns (b: bool)
      requires board.Valid()
      ensures b == CastleHome(board.Position(), color, kingside)
    {
      board.ValidShows();
      hide Shows, ValidPos, SideMask, Board.Valid, KingFree, RookFree, EmptyColumns;
      var back := if color == White then 7 else 0;
      var king := KingUnmoved(color);
      var rook := RookUnmoved(Square(back, if kingside then 7 else 0));
      var empty := SquaresEmpty(back, if kingside then [5, 6] else [1, 2, 3]);
      b := king && board.castlingRights & SideMask(color, kingside) != 0 && rook && empty;
    }

    /** The tests before a castling move is listed. */
    method CanCastle(color: Color, kingside: bool) returns (b: bool)
      requires board.Valid()
      ensures b == MayCastle(board.Position(), color, kingside)
    {
      hide MayCastle, CastleHome, ChessLegal.AttackedSquares, ChessLegal.InCheck, Board.Valid;
      CastleTests(board.Position(), color, kingside);
      b := HomeReady(color, kingside);
      if b {
        var back := if color == White then 7 else 0;
        var check := InCheck(color);
        var attacked := AttackedSquares(Opposite(color));
        b := !check && Square(back, if kingside then 5 else 3) !in attacked && Square(back, if kingside then 6 else 2) !in attacked;
      }
    }

    method SafeMovesAt(pieces: seq<Piece>, ghost spots: seq<Square>, i: nat, color: Color) returns (safe: seq<Ply>)
      requires board.Valid() && Inv(board.Position(), color) && PiecesAt(board.squares, pieces, spots) && i < |pieces|
      requires forall s :: s in spots ==> s in board.men && board.men[s].color == color
      modifies board, board.squares.Values
      ensures board.Valid() && Restored() && |pieces| == |spots|
      ensures forall m :: m in safe ==> fresh(m) && m.Tidy()
      ensures var p := old(board.Position());
              Kept(p, color, RawOf(p, spots[i..])) == Moves(safe) + Kept(p, color, RawOf(p, spots[i + 1..]))
    {
      hide Inv, ChessRules.RawMoves, RawOf, Kept, Moves, Board.Valid, PiecesAt, Restored;
      SpotCount(board.squares, pieces, spots);
      SpotKnown(board.squares, pieces, spots, i);
      board.KnownPiece(spots[i]);
      KeptOfPiece(board.Position(), color, spots, i);
      safe := SafeMoves(pieces[i], color);
    }

    /** The safe moves of every piece. */
    method AllSafeMoves(color: Color) returns (moves: seq<Ply>)
      requires board.Valid() && Inv(board.Position(), color)
      modifies board, board.squares.Values
      ensures board.Valid() && Restored()
      ensures forall m :: m in moves ==> fresh(m) && m.Tidy()
      ensures Moves(moves) == Kept(old(board.Position()), color, RawFrom(old(board.Position()), color, 0))
    {
      hide Inv, ChessRules.RawMoves, RawOf, RawFrom, Kept, Moves, Board.Valid, Shows, Standing, PiecesAt, OnBoard;
      board.ValidShows();
      ghost var p, squares, spots := board.Position(), board.squares, Standing(board.men, color, 0);
      var pieces := PiecesOf(color, board.men);
      RawOfStanding(p, color, 0);
      MovesOfNone();
      moves := [];
      SpotCount(squares, pieces, spots);
      var i := 0;
      while i < |pieces|
        invariant i <= |pieces| && board.Valid() && board.squares == squares && board.Position() == p
        invariant forall m :: m in moves ==> fresh(m) && m.Tidy()
        invariant Moves(moves) + Kept(p, color, RawOf(p, spots[i..])) == Kept(p, color, RawFrom(p, color, 0))
      {
        var safe := SafeMovesAt(pieces, spots, i, color);
        MovesConcat(moves, safe);
        moves := moves + safe;
        i := i + 1;
      }
      KeptOfNone(p, color, spots);
      RestoredFrom();
    }

    /** The legal moves. Finding them leaves the board exactly as it was. */
    method LegalMoves(color: Color) returns (moves: seq<Ply>)
      requires board.Valid() && Inv(board.Position(), color)
      modifies board, board.squares.Values
      ensures board.Valid() && Restored()
      ensures forall m :: m in moves ==> fresh(m) && m.Tidy()
      ensures Moves(moves) == ChessLegal.LegalMoves(old(board.Position()), color)
    {
      hide Inv, RawFrom, Kept, Moves, Board.Valid, MayCastle;
      moves := AllSafeMoves(color);
      var kingside := CanCastle(color, true);
      if kingside {
        var castle := new Ply(CastleMove(color, true));
        MovesConcat(moves, [castle]);
        MovesOfOne(castle);
        moves := moves + [castle];
      }
      var queenside := CanCastle(color, false);
      if queenside {
        var castle := new Ply(CastleMove(color, false));
        MovesConcat(moves, [castle]);
        MovesOfOne(castle);
        moves := moves + [castle];
      }
    }

    method IsCheckmate(color: Color) returns (b: bool)
      requires board.Valid() && Inv(board.Position(), color)
      modifies board, board.squares.Values
      ensures board.Valid() && Restored() && b == Checkmated(old(board.Position()), color)
    {
      hide Inv, ChessLegal.InCheck, ChessLegal.LegalMoves, Board.Valid, Moves;
      var check := InCheck(color);
      if check {
        var moves := LegalMoves(color);
        b := |moves| == 0;
      } else {
        b := false;
        RestoredFrom();
      }
    }

    method IsStalemate(color: Color) returns (b: bool)
      requires board.Valid() && Inv(board.Position(), color)
      modifies board, board.squares.Values
      ensures board.Valid() && Restored() && b == Stalemated(old(board.Position()), color)
    {
      hide Inv, ChessLegal.InCheck, ChessLegal.LegalMoves, Board.Valid, Moves;
      var check := InCheck(color);
      if !check {
        var moves := LegalMoves(color);
        b := |moves| == 0;
      } else {
        b := false;
        RestoredFrom();
      }
    }

    method TakeTurn(m: Ply)
      requires board.Valid() && Inv(board.Position(), currentTurn) && Playable(board.Position(), currentTurn, m.move) && m.Tidy()
      modifies this, board, board.squares.Values, m
      ensures board.Valid() && board.Position() == Made(old(board.Position()), m.move)
      ensures moveCount == old(moveCount) + 1 && currentTurn == Opposite(old(currentTurn))
      ensures forall p :: p in board.squares.Values ==> p in old(board.squares.Values) || fresh(p)
    {
      hide Inv, Playable, Made, Board.Valid, Board.Pending;
      board.Advance(m, currentTurn);
      moveCount := moveCount + 1;
      currentTurn := Opposite(currentTurn);
    }

    /** The verdict on the side to move. */
    method Verdict() returns (outcome: Option<Outcome>)
      requires board.Valid() && Inv(board.Position(), currentTurn)
      modifies board, board.squares.Values
      ensures board.Valid() && Restored()
      ensures outcome.Some? ==> Decided(outcome.value, old(board.Position()), currentTurn)
      ensures outcome.None? ==> ChessLegal.LegalMoves(old(board.Position()), currentTurn) != []
    {
      hide Inv, ChessLegal.InCheck, ChessLegal.LegalMoves, Board.Valid;
      var mate := IsCheckmate(currentTurn);
      if mate {
        return Some(if currentTurn == Black then WhiteWins else BlackWins);
      }
      var stale := IsStalemate(currentTurn);
      outcome := if stale then Some(Draw) else None;
      RestoredFrom();
    }

    /** Plays moves, each chosen among the legal ones, until the game is decided or
        the limit is reached. What it plays is a game. */
    method PlayAuto() returns (outcome: Outcome, ghost ps: seq<Position>, ghost ms: seq<Move>)
      requires board.Valid() && board.Position() == Initial() && currentTurn == White && moveCount == 0
      modifies this, board, board.squares.Values
      ensures board.Valid() && IsGame(ps, ms) && ps[|ms|] == board.Position()
      ensures moveCount == |ms| <= 500 && currentTurn == TurnAt(|ms|)
      ensures Decided(outcome, board.Position(), currentTurn) || (outcome == Draw && moveCount == 500)
    {
      hide Inv, ChessLegal.InCheck, ChessLegal.LegalMoves, Made, Playable, Board.Valid, Moves, Initial;
      GameBegins();
      ps, ms := [board.Position()], [];
      while moveCount < MAX_MOVES
        invariant board.Valid() && IsGame(ps, ms) && ps[|ms|] == board.Position()
        invariant moveCount == |ms| <= MAX_MOVES && currentTurn == TurnAt(|ms|)
        invariant forall p :: p in board.squares.Values ==> p in old(board.squares.Values) || fresh(p)
      {
        InvAlways(ps, ms, |ms|);
        var legal := LegalMoves(currentTurn);
        if |legal| == 0 {
          var check := InCheck(currentTurn);
          outcome := if !check then Draw else if currentTurn == Black then WhiteWins else BlackWins;
          return;
        }
        var idx: nat :| idx < |legal|;
        PickedMove(board.Position(), currentTurn, legal, idx);
        GameGoesOn(ps, ms, legal[idx].move);
        NextTurn(|ms|);
        TakeTurn(legal[idx]);
        ps, ms := ps + [board.Position()], ms + [legal[idx].move];
        InvAlways(ps, ms, |ms|);
        var verdict := Verdict();
        if verdict.Some? {
          return verdict.value, ps, ms;
        }
      }
      outcome := Draw;
    }
  }
}
