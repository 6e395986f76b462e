/** Castling against the Laws of Chess, and whole games. */
module ChessGame {
  import opened ChessRules
  import opened ChessMoves
  import opened ChessLegal
  import opened Wrappers

  // ---- Castling ----

  lemma MayCastlePair(p: Position, c: Color, kingside: bool)
    requires OnBoard(p.men) && UnmovedAtHome(p.men) && MayCastle(p, c, kingside)
    ensures CastlingPair(p.men, c, kingside) && FindKing(p.men, c, 0) == Some(KingHome(c))
  {
    hide InCheck, AttackedSquares, FindKing, SideMask;
    FindKingFrom(p.men, c, 0);
    var k := FindKing(p.men, c, 0).value;
    assert IsHome(k, p.men[k]) && ValidPos(k);
    assert IsHome(Corner(c, kingside), p.men[Corner(c, kingside)]);
    assert CastleMove(c, kingside).to in Between(c, kingside);
    assert RookTo(CastleMove(c, kingside)) in Between(c, kingside);
  }

  /** The rook's colour is never tested, yet it is the mover's own. */
  lemma CastlingPairsOwnMen(p: Position, c: Color, m: Move)
    requires Inv(p, c) && m in LegalMoves(p, c) && m.isCastling
    ensures IsCastling(p.men, c, m)
    ensures m.from in p.men && p.men[m.from] == Man(c, King, false)
    ensures RookFrom(m) in p.men && p.men[RookFrom(m)] == Man(c, Rook, false)
  {
    hide RawFrom, Kept, Castles, MayCastle, IsRaw, OneKing, PawnsPromoted, EpOk, RightsKept;
    KeptMeans(p, c, RawFrom(p, c, 0), m);
    CastlesMean(p, c, m);
    RawListed(p, c, m);
    if IsRaw(p, m) {
      RawShape(p, m);
    }
    var kingside :| m == CastleMove(c, kingside) && MayCastle(p, c, kingside);
    MayCastlePair(p, c, kingside);
  }

  lemma LegalPlayable(p: Position, c: Color, m: Move)
    requires Inv(p, c) && m in LegalMoves(p, c)
    ensures Playable(p, c, m)
  {
    hide Inv, LegalMoves, IsRaw, IsCastling, KingAt, Attacked;
    if m.isCastling {
      CastlingPairsOwnMen(p, c, m);
    } else {
      LegalMeaning(p, c, m);
    }
  }

  /** The conditions of article 3.8 of the Laws. */
  ghost predicate FideCastle(p: Position, c: Color, kingside: bool) {
    && Unmoved(p.men, KingHome(c), c, King) && Unmoved(p.men, Corner(c, kingside), c, Rook)
    && Between(c, kingside) !! p.men.Keys
    && !Attacked(p.men, KingHome(c), Opposite(c))
    && forall t :: t in Transit(c, kingside) ==> !Attacked(p.men, t, Opposite(c))
  }

  /** An enemy pawn attacks a square that the king passes or arrives on. */
  ghost predicate PawnGuards(men: Men, c: Color, kingside: bool) {
    exists t, f :: t in Transit(c, kingside) && f in men && men[f].color == Opposite(c) && men[f].kind == Pawn && Attacks(men, f, t)
  }

  predicate PushesTo(men: Men, f: Square, s: Square, side: Color) {
    f in men && men[f].color == side && men[f].kind == Pawn && s == Square(f.row + Forward(side), f.col)
  }

  /** What is counted as an attack on an empty square of a back row: the reach of
      every man but the pawns, and the pawns' pushes instead of their captures. */
  lemma EmptyBackSquare(p: Position, s: Square, side: Color)
    requires OnBoard(p.men) && ValidPos(s) && s !in p.men && (s.row == 0 || s.row == 7) && p.ep.row != 0 && p.ep.row != 7
    ensures s in AttackedSquares(p, side) <==>
      || (exists f :: f in p.men && p.men[f].color == side && p.men[f].kind != Pawn && Attacks(p.men, f, s))
      || (exists f :: PushesTo(p.men, f, s, side))
  {
    hide RawFrom, Attacks, OnBoard;
    if s in AttackedSquares(p, side) {
      var m :| m in RawFrom(p, side, 0) && m.to == s;
      RawListed(p, side, m);
      assert p.men[m.from].kind == Pawn ==> PushesTo(p.men, m.from, s, side);
    }
    forall f | f in p.men && p.men[f].color == side && p.men[f].kind != Pawn && Attacks(p.men, f, s)
      ensures s in AttackedSquares(p, side)
    {
      RawListed(p, side, Plain(f, s));
      assert Plain(f, s).to == s;
    }
    forall f | PushesTo(p.men, f, s, side) ensures s in AttackedSquares(p, side) {
      RawListed(p, side, PawnStep(f, s, side));
      assert PawnStep(f, s, side).to == s;
    }
  }

  /** A pawn that could push onto a transit square attacks the square next to it,
      which the king stands on or passes. */
  lemma PushAttacksNextTo(men: Men, c: Color, kingside: bool, t: Square, f: Square)
    requires t in Transit(c, kingside) && PushesTo(men, f, t, Opposite(c))
    ensures Attacked(men, KingHome(c), Opposite(c)) || exists t' :: t' in Transit(c, kingside) && Attacked(men, t', Opposite(c))
  {
    var next := Square(t.row, if kingside then t.col - 1 else t.col + 1);
    assert Attacks(men, f, next);
    assert Attacked(men, next, Opposite(c));
    assert next == KingHome(c) || next in Transit(c, kingside);
  }

  lemma TransitSquares(c: Color, kingside: bool, t: Square)
    requires t in Transit(c, kingside)
    ensures t in Between(c, kingside) && ValidPos(t) && (t.row == 0 || t.row == 7)
  {
  }

  /** The castling moves that are listed break the Laws exactly when an enemy pawn
      attacks a square the king passes or arrives on; none that they allow is missing. */
  lemma CastlingExact(p: Position, c: Color, kingside: bool)
    requires Inv(p, c)
    ensures FideCastle(p, c, kingside) <==> MayCastle(p, c, kingside) && !PawnGuards(p.men, c, kingside)
  {
    if MayCastle(p, c, kingside) && !PawnGuards(p.men, c, kingside) {
      ListedIsFide(p, c, kingside);
    }
    if FideCastle(p, c, kingside) {
      FideIsListed(p, c, kingside);
    }
  }

  lemma EpNotOnBackRow(p: Position, turn: Color)
    requires EpOk(p, turn)
    ensures p.ep !in p.men || p.ep == NOWHERE
    ensures p.ep.row != 0 && p.ep.row != 7
  {
  }

  lemma ListedIsFide(p: Position, c: Color, kingside: bool)
    requires Inv(p, c) && MayCastle(p, c, kingside) && !PawnGuards(p.men, c, kingside)
    ensures FideCastle(p, c, kingside)
  {
    hide Attacks, AttackedSquares, InCheck, Transit, Between, FindKing, SideMask, OneKing, EpOk, RightsKept, PawnsPromoted, UnmovedAtHome;
    MayCastlePair(p, c, kingside);
    EpNotOnBackRow(p, c);
    EpEmpty(p, c);
    CheckIsAttack(p, c);
    assert KingAt(p.men, c, KingHome(c));
    forall t | t in Transit(c, kingside) ensures !Attacked(p.men, t, Opposite(c)) {
      TransitSquares(c, kingside, t);
      EmptyBackSquare(p, t, Opposite(c));
    }
  }

  lemma FideIsListed(p: Position, c: Color, kingside: bool)
    requires Inv(p, c) && FideCastle(p, c, kingside)
    ensures MayCastle(p, c, kingside) && !PawnGuards(p.men, c, kingside)
  {
    hide Attacks, AttackedSquares, InCheck, Transit, Between, FindKing, SideMask, EpOk, PawnsPromoted, UnmovedAtHome;
    EpNotOnBackRow(p, c);
    EpEmpty(p, c);
    assert KingAt(p.men, c, KingHome(c));
    KingFound(p.men, c, KingHome(c));
    CheckIsAttack(p, c);
    NotInCheck(p, c);
    forall t | t in Transit(c, kingside) ensures t !in AttackedSquares(p, Opposite(c)) {
      TransitSquares(c, kingside, t);
      EmptyBackSquare(p, t, Opposite(c));
      forall f | PushesTo(p.men, f, t, Opposite(c)) ensures false {
        PushAttacksNextTo(p.men, c, kingside, t, f);
      }
    }
  }

  lemma NotInCheck(p: Position, c: Color)
    requires OnBoard(p.men) && OneKing(p.men) && p.ep !in p.men
    requires KingAt(p.men, c, KingHome(c)) && !Attacked(p.men, KingHome(c), Opposite(c))
    ensures !InCheck(p, c)
  {
    hide Attacked, InCheck;
    CheckIsAttack(p, c);
  }

  // ---- Whole games ----

  function HomeSquares(): set<Square> {
    set r, c | 0 <= r < 8 && 0 <= c < 8 && (r < 2 || r >= 6) :: Square(r, c)
  }

  function HomeMan(s: Square): Man {
    Man(if s.row < 2 then Black else White, if s.row == 1 || s.row == 6 then Pawn else BackRank(s.col), false)
  }

  function Initial(): Position {
    Position(map s | s in HomeSquares() :: HomeMan(s), NOWHERE, CASTLE_ALL)
  }

  lemma InitialMen()
    ensures forall s :: s in Initial().men ==> Initial().men[s] == HomeMan(s) && ValidPos(s) && (s.row < 2 || s.row >= 6)
  {
  }

  lemma AllRights()
    ensures forall c, kingside :: CASTLE_ALL & SideMask(c, kingside) != 0
  {
  }

  lemma InitialInv()
    ensures Inv(Initial(), White)
  {
    InitialMen();
    AllRights();
    assert Initial().ep == NOWHERE && Initial().rights == CASTLE_ALL;
    hide Initial, SideMask, CASTLE_ALL;
  }

  function TurnAt(k: nat): Color {
    if k % 2 == 0 then White else Black
  }

  /** A game: at each turn the side to move plays one of its legal moves. */
  ghost predicate IsGame(ps: seq<Position>, ms: seq<Move>) {
    && |ps| == |ms| + 1 && ps[0] == Initial()
    && forall k :: 0 <= k < |ms| ==> ms[k] in LegalMoves(ps[k], TurnAt(k)) && ps[k + 1] == Made(ps[k], ms[k])
  }

  lemma {:induction false} InvAlways(ps: seq<Position>, ms: seq<Move>, k: nat)
    requires IsGame(ps, ms) && k < |ps|
    ensures Inv(ps[k], TurnAt(k))
  {
    hide Inv, Made, LegalMoves, Initial;
    if k == 0 {
      InitialInv();
    } else {
      InvAlways(ps, ms, k - 1);
      LegalPlayable(ps[k - 1], TurnAt(k - 1), ms[k - 1]);
      InvKept(ps[k - 1], TurnAt(k - 1), ms[k - 1]);
    }
  }

  /** Over a game, castling rights are only ever lost. */
  lemma {:induction false} RightsOnlyLost(ps: seq<Position>, ms: seq<Move>, j: nat, k: nat)
    requires IsGame(ps, ms) && j <= k < |ps|
    ensures ps[k].rights & !ps[j].rights == 0
    decreases k - j
  {
    hide Made, LegalMoves, Initial;
    if j < k {
      RightsOnlyLost(ps, ms, j, k - 1);
      RightsShrink(ps[k - 1], ms[k - 1]);
      MaskChain(ps[k].rights, ps[k - 1].rights, ps[j].rights);
    }
  }

  lemma MaskChain(a: bv4, b: bv4, c: bv4)
    requires a & !b == 0 && b & !c == 0
    ensures a & !c == 0
  {
  }

  /** Any move of any game can be undone, position and all. */
  lemma GameUndo(ps: seq<Position>, ms: seq<Move>, k: nat)
    requires IsGame(ps, ms) && k < |ms|
    ensures ms[k].from in ps[k].men && Undone(ps[k + 1], ms[k], Recorded(ps[k], ms[k])) == ps[k]
  {
    hide Inv, Made, Undone, Recorded, LegalMoves, Initial, Playable;
    InvAlways(ps, ms, k);
    LegalPlayable(ps[k], TurnAt(k), ms[k]);
    UndoRestores(ps[k], TurnAt(k), ms[k]);
  }
}
