/** A game of ten legal moves in which White castles into a pawn's attack and the
    king is taken. */
module ChessKingTaken {
  import opened ChessRules
  import opened ChessMoves
  import opened ChessLegal
  import opened ChessGame
  import opened Wrappers

  // ---- Squares that no man can attack ----

  /** A square of the other side's back row: the three squares before it are taken,
      and the men of `side` but the pawns are three rows away or more. */
  predicate Screened(men: Men, s: Square, side: Color) {
    && (forall dc :: -1 <= dc <= 1 ==> Before(s, side, dc) in men)
    && (forall f :: f in men && men[f].color == side && men[f].kind != Pawn ==> Abs(s.row - f.row) >= 3)
  }

  /** The square before `s`, seen from its back row, or one beside that. */
  function Before(s: Square, side: Color, dc: int): Square {
    Square(s.row - Forward(side), s.col + dc)
  }

  lemma ScreenedFrom(men: Men, s: Square, side: Color, f: Square)
    requires OnBoard(men) && ValidPos(s) && s.row == PromoRow(side) && Screened(men, s, side)
    requires f in men && men[f].color == side && men[f].kind != Pawn
    ensures !Attacks(men, f, s)
  {
    assert Abs(s.row - f.row) >= 3 && ValidPos(f);
    if Diagonal(f, s) || Straight(f, s) {
      var d := DirOf(f, s);
      assert d.dr == Forward(side);
      assert Ray(f, d, Distance(f, s) - 1) == Before(s, side, -d.dc);
      assert !Clear(men, f, s);
    }
  }

  // ---- Positions as changes to the initial one ----

  type Changes = map<Square, Option<Man>>

  function Home(s: Square): Option<Man> {
    if ValidPos(s) && (s.row < 2 || s.row >= 6) then Some(HomeMan(s)) else None
  }

  function Look(e: Changes, s: Square): Option<Man> {
    if s in e then e[s] else Home(s)
  }

  ghost predicate Shows(men: Men, e: Changes) {
    forall s :: At(men, s) == Look(e, s)
  }

  lemma InitialShows()
    ensures Shows(Initial().men, map[])
  {
    InitialMen();
    forall s ensures At(Initial().men, s) == Look(map[], s) {
      assert ValidPos(s) && (s.row < 2 || s.row >= 6) ==> s in HomeSquares();
    }
  }

  function Next(e: Changes, m: Move): Changes {
    match Look(e, m.from)
    case None => e
    case Some(man) => e[m.from := None][m.to := Some(Arriving(man, m))]
  }

  lemma ShowsNext(p: Position, e: Changes, m: Move)
    requires Shows(p.men, e) && m.from in p.men && !m.isEnPassant && !m.isCastling
    ensures Shows(Made(p, m).men, Next(e, m))
  {
    var man := p.men[m.from];
    assert At(p.men, m.from) == Look(e, m.from);
    PlacedAt(p.men, m, Arriving(man, m));
    hide Arriving, Home, Placed;
    var after := Made(p, m).men;
    forall s ensures At(after, s) == Look(Next(e, m), s) {
      assert At(p.men, s) == Look(e, s);
    }
  }

  /** The king of `c` is at home behind its three pawns, with the other side's men
      but the pawns far away. */
  predicate Sheltering(e: Changes, c: Color) {
    && KingHome(c) !in e
    && (forall dc :: -1 <= dc <= 1 ==> Before(KingHome(c), Opposite(c), dc) !in e)
    && (forall s :: s in e ==>
          e[s].None? || e[s].value.color == c || e[s].value.kind == Pawn || Abs(KingHome(c).row - s.row) >= 3)
  }

  lemma ShelteredKing(men: Men, e: Changes, c: Color)
    requires OnBoard(men) && Shows(men, e) && Sheltering(e, c)
    ensures KingAt(men, c, KingHome(c)) && Unmoved(men, KingHome(c), c, King)
    ensures !Attacked(men, KingHome(c), Opposite(c))
  {
    var k := KingHome(c);
    assert At(men, k) == Look(e, k) == Home(k);
    forall dc | -1 <= dc <= 1 ensures At(men, Before(k, Opposite(c), dc)) == Some(Man(c, Pawn, false)) {
      assert Look(e, Before(k, Opposite(c), dc)) == Home(Before(k, Opposite(c), dc));
    }
    forall f | f in men && men[f].color == Opposite(c) && men[f].kind != Pawn ensures Abs(k.row - f.row) >= 3 {
      assert At(men, f) == Look(e, f);
    }
    forall f | f in men && men[f].color == Opposite(c) ensures !Attacks(men, f, k) {
      if men[f].kind == Pawn {
        assert Attacks(men, f, k) ==> f == Before(k, Opposite(c), f.col - 4);
      } else {
        ScreenedFrom(men, k, Opposite(c), f);
      }
    }
  }

  // ---- One quiet move ----

  /** A pawn's move, a knight's move or a bishop's single step. */
  predicate Quiet(e: Changes, c: Color, m: Move) {
    && ValidPos(m.to) && Look(e, m.from).Some? && Look(e, m.from).value.color == c
    && var one := Square(m.from.row + Forward(c), m.from.col);
       var target := Look(e, m.to);
       match Look(e, m.from).value.kind
       case Pawn =>
         || (m == PawnStep(m.from, one, c) && target == None)
         || (m == DoublePush(m.from, Square(one.row + Forward(c), one.col)) && m.from.row == StartRow(c)
             && Look(e, one) == None && target == None)
         || (m == PawnStep(m.from, m.to, c) && m.to.row == one.row && Abs(m.to.col - one.col) == 1
             && target.Some? && target.value.color != c)
       case Knight =>
         m == Plain(m.from, m.to) && target == None
         && (Dir(m.to.row - m.from.row, m.to.col - m.from.col) == Dir(-2, -1))
       case Bishop => m == Plain(m.from, m.to) && target == None && Diagonal(m.from, m.to) && Distance(m.from, m.to) == 1
       case _ => false
  }

  lemma QuietRaw(p: Position, e: Changes, c: Color, m: Move)
    requires Shows(p.men, e) && Quiet(e, c, m)
    ensures IsRaw(p, m) && p.men[m.from].color == c && !m.isEnPassant && !m.isCastling
  {
    var one := Square(m.from.row + Forward(c), m.from.col);
    assert At(p.men, m.from) == Look(e, m.from);
    assert At(p.men, m.to) == Look(e, m.to);
    assert At(p.men, one) == Look(e, one);
    hide Look, Shows;
  }

  /** Neither king nor a pawn before it moves, and no other man comes near a king. */
  predicate Remote(man: Man, m: Move) {
    && Bare(m.from) && Bare(m.to)
    && (man.kind == Pawn || (if man.color == White then m.to.row >= 3 else m.to.row <= 4))
  }

  predicate Bare(s: Square) {
    !(3 <= s.col <= 5 && (s.row == 1 || s.row == 6)) && s != Square(0, 4) && s != Square(7, 4)
  }

  lemma ShelterKept(e: Changes, c: Color, m: Move)
    requires Sheltering(e, c) && Look(e, m.from).Some? && Remote(Look(e, m.from).value, m) && !m.isPromotion
    ensures Sheltering(Next(e, m), c)
  {
    hide Look;
  }

  function Later(e: Changes, m: Move, s: Square): Option<Man>
    requires Look(e, m.from).Some?
  {
    if s == m.to then Some(Look(e, m.from).value.(hasMoved := true)) else if s == m.from then None else Look(e, s)
  }

  lemma LookNext(e: Changes, m: Move)
    requires Look(e, m.from).Some? && !m.isPromotion
    ensures forall s :: Look(Next(e, m), s) == Later(e, m, s)
  {
  }

  lemma QuietFrom(e: Changes, c: Color, m: Move)
    requires Quiet(e, c, m)
    ensures Look(e, m.from).Some?
  {
  }

  /** A quiet move that leaves its own king sheltered extends the game. */
  lemma QuietPly(ps: seq<Position>, ms: seq<Move>, e: Changes, m: Move) returns (q: Position)
    requires IsGame(ps, ms) && Shows(ps[|ms|].men, e)
    requires Quiet(e, TurnAt(|ms|), m) && Sheltering(Next(e, m), TurnAt(|ms|))
    ensures IsGame(ps + [q], ms + [m]) && Shows(q.men, Next(e, m))
  {
    hide *;
    GameLength(ps, ms);
    var p, c := ps[|ms|], TurnAt(|ms|);
    q := Made(p, m);
    InvAlways(ps, ms, |ms|);
    QuietRaw(p, e, c, m);
    RawFromMen(p, m);
    ShowsNext(p, e, m);
    RawKept(p, c, m);
    ShelteredKing(q.men, Next(e, m), c);
    KingStays(p, c, m);
    GameExtends(ps, ms, m);
  }

  lemma GameLength(ps: seq<Position>, ms: seq<Move>)
    requires IsGame(ps, ms)
    ensures |ps| == |ms| + 1
  {
  }

  lemma RawKept(p: Position, c: Color, m: Move)
    requires Inv(p, c) && IsRaw(p, m) && m.from in p.men && p.men[m.from].color == c
    ensures Inv(Made(p, m), Opposite(c)) && OnBoard(Made(p, m).men) && OneKing(Made(p, m).men)
  {
    hide IsRaw, Made;
    InvKept(p, c, m);
  }

  lemma KingStays(p: Position, c: Color, m: Move)
    requires Inv(p, c) && !m.isCastling && IsRaw(p, m) && m.from in p.men && p.men[m.from].color == c
    requires OneKing(Made(p, m).men) && KingAt(Made(p, m).men, c, KingHome(c))
    requires !Attacked(Made(p, m).men, KingHome(c), Opposite(c))
    ensures m in LegalMoves(p, c)
  {
    hide IsRaw, Made, Attacked, LegalMoves, Inv;
    LegalMeaning(p, c, m);
  }

  lemma GameExtends(ps: seq<Position>, ms: seq<Move>, m: Move)
    requires IsGame(ps, ms) && m in LegalMoves(ps[|ms|], TurnAt(|ms|))
    ensures IsGame(ps + [Made(ps[|ms|], m)], ms + [m])
  {
    hide LegalMoves, Made, Initial, TurnAt;
    var ps', ms' := ps + [Made(ps[|ms|], m)], ms + [m];
    forall k | 0 <= k < |ms'| ensures ms'[k] in LegalMoves(ps'[k], TurnAt(k)) && ps'[k + 1] == Made(ps'[k], ms'[k]) {
      if k < |ms| {
        assert ms'[k] == ms[k] && ps'[k] == ps[k] && ps'[k + 1] == ps[k + 1];
      }
    }
  }

  // ---- The game ----

  const KING_TAKEN: seq<Move> := [
    DoublePush(Square(6, 7), Square(4, 7)), DoublePush(Square(1, 6), Square(3, 6)),
    Plain(Square(7, 6), Square(5, 5)), PawnStep(Square(3, 6), Square(4, 7), Black),
    PawnStep(Square(6, 6), Square(5, 6), White), PawnStep(Square(4, 7), Square(5, 7), Black),
    Plain(Square(7, 5), Square(6, 6)), PawnStep(Square(5, 7), Square(6, 7), Black),
    CastleMove(White, true), PawnStep(Square(6, 7), Square(7, 6), Black)]

  /** A game so far: its positions, its moves, what has changed since the start. */
  datatype Play = Play(ps: seq<Position>, ms: seq<Move>, e: Changes)

  ghost predicate Going(g: Play) {
    && IsGame(g.ps, g.ms) && Shows(g.ps[|g.ms|].men, g.e)
    && Sheltering(g.e, White) && Sheltering(g.e, Black)
  }

  lemma Begin() returns (g: Play)
    ensures Going(g) && g.ms == [] && forall s :: Look(g.e, s) == Home(s)
  {
    hide Initial, Home;
    InitialShows();
    g := Play([Initial()], [], map[]);
  }

  /** One more quiet move. */
  lemma Onward(g: Play, m: Move) returns (h: Play)
    requires Going(g) && !m.isPromotion
    requires Quiet(g.e, TurnAt(|g.ms|), m) && Remote(Look(g.e, m.from).value, m)
    ensures Going(h) && h.ms == g.ms + [m]
    ensures forall s :: Look(h.e, s) == Later(g.e, m, s)
  {
    hide Quiet, Sheltering, IsGame, Look, Shows, Next, Remote;
    QuietFrom(g.e, TurnAt(|g.ms|), m);
    ShelterKept(g.e, White, m);
    ShelterKept(g.e, Black, m);
    var q := QuietPly(g.ps, g.ms, g.e, m);
    LookNext(g.e, m);
    GameLength(g.ps, g.ms);
    GameLength(g.ps + [q], g.ms + [m]);
    h := Play(g.ps + [q], g.ms + [m], Next(g.e, m));
  }

  lemma Fourth() returns (g: Play)
    ensures Going(g) && g.ms == KING_TAKEN[..4]
    ensures Look(g.e, Square(4, 7)) == Some(Man(Black, Pawn, true)) && Look(g.e, Square(5, 7)) == None
    ensures Look(g.e, Square(6, 7)) == None && Look(g.e, Square(7, 6)) == None
    ensures forall s: Square :: s.row == 6 && s.col < 7 ==> Look(g.e, s) == Home(s)
    ensures forall s: Square :: s.row == 5 && s.col > 5 ==> Look(g.e, s) == None
    ensures forall s: Square :: s.row == 7 && s.col != 6 ==> Look(g.e, s) == Home(s)
  {
    hide Going, Look;
    g := Begin();
    g := Onward(g, DoublePush(Square(6, 7), Square(4, 7)));
    g := Onward(g, DoublePush(Square(1, 6), Square(3, 6)));
    g := Onward(g, Plain(Square(7, 6), Square(5, 5)));
    g := Onward(g, PawnStep(Square(3, 6), Square(4, 7), Black));
  }

  lemma Eighth() returns (g: Play)
    ensures Going(g) && g.ms == KING_TAKEN[..8]
    ensures Look(g.e, Square(6, 7)) == Some(Man(Black, Pawn, true))
    ensures Look(g.e, Square(6, 6)) == Some(Man(White, Bishop, true))
    ensures Look(g.e, Square(7, 5)) == None && Look(g.e, Square(7, 6)) == None
    ensures forall s: Square :: s.row == 6 && s.col < 6 ==> Look(g.e, s) == Home(s)
    ensures forall s: Square :: s.row == 7 && (s.col < 5 || s.col == 7) ==> Look(g.e, s) == Home(s)
  {
    hide Going, Look;
    g := Fourth();
    g := Onward(g, PawnStep(Square(6, 6), Square(5, 6), White));
    g := Onward(g, PawnStep(Square(4, 7), Square(5, 7), Black));
    g := Onward(g, Plain(Square(7, 5), Square(6, 6)));
    g := Onward(g, PawnStep(Square(5, 7), Square(6, 7), Black));
  }

  // ---- Castling into the pawn ----

  /** The pawn on h2 has f2 and g2 blocked and a rook before it: nothing that is
      counted as an attack reaches f1 or g1. */
  lemma NotCounted(p: Position, e: Changes, t: Square)
    requires Inv(p, White) && Shows(p.men, e) && Sheltering(e, White)
    requires Look(e, Square(6, 7)).Some? && Look(e, Square(6, 6)) == Some(Man(White, Bishop, true))
    requires Look(e, Square(6, 5)) == Home(Square(6, 5)) && Look(e, Square(6, 4)) == Home(Square(6, 4))
    requires Look(e, t) == None && (t == Square(7, 5) || t == Square(7, 6))
    ensures t !in AttackedSquares(p, Black)
  {
    var men := p.men;
    forall dc | -1 <= dc <= 1 ensures Before(t, Black, dc) in men && (dc <= 0 ==> men[Before(t, Black, dc)].color == White) {
      assert At(men, Before(t, Black, dc)) == Look(e, Before(t, Black, dc));
    }
    FarBlack(men, e, White);
    assert At(men, t) == Look(e, t);
    ParseInv(p);
    hide Look, Shows, Sheltering, AttackedSquares, Attacks, Inv;
    forall f | f in men && men[f].color == Black && men[f].kind != Pawn ensures !Attacks(men, f, t) {
      ScreenedFrom(men, t, Black, f);
    }
    forall f ensures !PushesTo(men, f, t, Black) {
      assert PushesTo(men, f, t, Black) ==> f == Before(t, Black, 0);
    }
    EmptyBackSquare(p, t, Black);
  }

  lemma ParseInv(p: Position)
    requires Inv(p, White)
    ensures OnBoard(p.men) && UnmovedAtHome(p.men) && OneKing(p.men) && p.ep !in p.men
    ensures p.ep.row != 0 && p.ep.row != 7 && RightsKept(p)
  {
    EpEmpty(p, White);
    EpNotOnBackRow(p, White);
    hide UnmovedAtHome, OneKing, RightsKept;
  }

  lemma FarBlack(men: Men, e: Changes, c: Color)
    requires Shows(men, e) && Sheltering(e, c)
    ensures forall f :: f in men && men[f].color == Opposite(c) && men[f].kind != Pawn ==> Abs(KingHome(c).row - f.row) >= 3
  {
    forall f | f in men && men[f].color == Opposite(c) && men[f].kind != Pawn ensures Abs(KingHome(c).row - f.row) >= 3 {
      assert At(men, f) == Look(e, f);
    }
  }

  lemma CastlingSquares(p: Position, e: Changes)
    requires Shows(p.men, e)
    requires Look(e, Square(7, 7)) == Home(Square(7, 7)) && Look(e, Square(7, 5)) == None && Look(e, Square(7, 6)) == None
    ensures Unmoved(p.men, Square(7, 7), White, Rook) && Square(7, 5) !in p.men && Square(7, 6) !in p.men
  {
    assert At(p.men, Square(7, 7)) == Look(e, Square(7, 7)) == Some(Man(White, Rook, false));
    assert At(p.men, Square(7, 5)) == Look(e, Square(7, 5));
    assert At(p.men, Square(7, 6)) == Look(e, Square(7, 6));
  }

  lemma MayCastleIf(p: Position)
    requires FindKing(p.men, White, 0) == Some(Square(7, 4)) && RightsKept(p) && !InCheck(p, White)
    requires Unmoved(p.men, Square(7, 4), White, King) && Unmoved(p.men, Square(7, 7), White, Rook)
    requires Square(7, 5) !in p.men && Square(7, 6) !in p.men
    requires Square(7, 5) !in AttackedSquares(p, Black) && Square(7, 6) !in AttackedSquares(p, Black)
    ensures MayCastle(p, White, true)
  {
    hide FindKing, InCheck, AttackedSquares, SideMask;
    assert Unmoved(p.men, KingHome(White), White, King) && Unmoved(p.men, Corner(White, true), White, Rook);
  }

  lemma MayCastleHere(p: Position, e: Changes)
    requires Inv(p, White) && Shows(p.men, e) && Sheltering(e, White)
    requires Look(e, Square(6, 7)).Some? && Look(e, Square(6, 6)) == Some(Man(White, Bishop, true))
    requires Look(e, Square(6, 5)) == Home(Square(6, 5)) && Look(e, Square(6, 4)) == Home(Square(6, 4))
    requires Look(e, Square(7, 7)) == Home(Square(7, 7)) && Look(e, Square(7, 5)) == None && Look(e, Square(7, 6)) == None
    ensures MayCastle(p, White, true)
  {
    assert KingHome(White) == Square(7, 4);
    hide *;
    NotCounted(p, e, Square(7, 5));
    NotCounted(p, e, Square(7, 6));
    CastlingSquares(p, e);
    ParseInv(p);
    ShelteredKing(p.men, e, White);
    KingFound(p.men, White, KingHome(White));
    assert !Attacked(p.men, KingHome(White), Black) by { OtherSide(); }
    NotInCheck(p, White);
    MayCastleIf(p);
  }

  lemma OtherSide()
    ensures Opposite(White) == Black && Opposite(Black) == White
  {
  }

  lemma CastleIsLegal(p: Position, c: Color, m: Move)
    requires m in Castles(p, c)
    ensures m in LegalMoves(p, c)
  {
    hide Castles, RawFrom, Kept;
  }

  function Castled(e: Changes): Changes {
    e[Square(7, 4) := None][Square(7, 7) := None]
     [Square(7, 6) := Some(Man(White, King, true))][Square(7, 5) := Some(Man(White, Rook, true))]
  }

  lemma CastledShows(p: Position, e: Changes)
    requires IsCastling(p.men, White, CastleMove(White, true)) && Shows(p.men, e)
    ensures Shows(Made(p, CastleMove(White, true)).men, Castled(e))
  {
    var m := CastleMove(White, true);
    CastlingMade(p, White, m);
    var placed := Placed(p.men, m, Man(White, King, true));
    PlacedAt(p.men, m, Man(White, King, true));
    hide IsCastling, Made, Home, Placed;
    forall s ensures At(Shifted(placed, Square(7, 7), Square(7, 5), Man(White, Rook, true)), s) == Look(Castled(e), s) {
      assert At(p.men, s) == Look(e, s);
      assert s != m.to && s != m.from ==> At(placed, s) == At(p.men, s);
    }
  }

  lemma CastleIsPlayable(p: Position)
    requires Inv(p, White) && MayCastle(p, White, true)
    ensures var m := CastleMove(White, true);
            m in LegalMoves(p, White) && IsCastling(p.men, White, m) && Inv(Made(p, m), Black)
  {
    var m := CastleMove(White, true);
    ParseInv(p);
    MayCastlePair(p, White, true);
    hide LegalMoves, RawFrom, Kept, Castles, MayCastle, Inv, Made, CastlingPair, OnBoard, UnmovedAtHome, OneKing, RightsKept;
    CastlesMean(p, White, m);
    CastleIsLegal(p, White, m);
    assert IsCastling(p.men, White, m);
    InvKept(p, White, m);
  }

  lemma CastledLook(q: Position, e: Changes)
    requires Shows(q.men, Castled(e)) && Look(e, Square(6, 7)) == Some(Man(Black, Pawn, true)) && Sheltering(e, Black)
    ensures KingAt(q.men, White, Square(7, 6)) && Sheltering(Castled(e), Black)
    ensures Square(6, 7) in q.men && q.men[Square(6, 7)] == Man(Black, Pawn, true)
  {
    assert At(q.men, Square(7, 6)) == Look(Castled(e), Square(7, 6));
    assert At(q.men, Square(6, 7)) == Look(Castled(e), Square(6, 7)) == Look(e, Square(6, 7));
  }

  /** The pawn attacks the king, and may take it. */
  lemma PawnTakesKing(q: Position, e: Changes)
    requires Shows(q.men, e) && Sheltering(e, Black) && Inv(q, Black)
    requires KingAt(q.men, White, Square(7, 6))
    requires Square(6, 7) in q.men && q.men[Square(6, 7)] == Man(Black, Pawn, true)
    ensures Attacked(q.men, Square(7, 6), Black)
    ensures var m := PawnStep(Square(6, 7), Square(7, 6), Black);
            m in LegalMoves(q, Black) && forall s :: !KingAt(Made(q, m).men, White, s)
  {
    var m := PawnStep(Square(6, 7), Square(7, 6), Black);
    PawnReaches(q, m);
    NoKingLeft(q, m);
    hide *;
    OtherSide();
    TakenShelter(q, e, m);
    RawKept(q, Black, m);
    ShelteredKing(Made(q, m).men, Next(e, m), Black);
    KingStays(q, Black, m);
  }

  lemma PawnReaches(q: Position, m: Move)
    requires m == PawnStep(Square(6, 7), Square(7, 6), Black) && KingAt(q.men, White, Square(7, 6))
    requires m.from in q.men && q.men[m.from] == Man(Black, Pawn, true)
    ensures IsRaw(q, m) && Attacked(q.men, Square(7, 6), Black) && !m.isCastling
  {
    assert Attacks(q.men, Square(6, 7), Square(7, 6));
  }

  lemma NoKingLeft(q: Position, m: Move)
    requires IsRaw(q, m) && Inv(q, Black) && KingAt(q.men, White, m.to) && q.men[m.from].color == Black
    ensures forall s :: !KingAt(Made(q, m).men, White, s)
  {
    hide IsRaw, Inv, Made;
    MadeAt(q, Black, m);
    OnlyKing(q, Black);
  }

  lemma TakenShelter(q: Position, e: Changes, m: Move)
    requires Shows(q.men, e) && Sheltering(e, Black) && m == PawnStep(Square(6, 7), Square(7, 6), Black)
    requires m.from in q.men && q.men[m.from] == Man(Black, Pawn, true)
    ensures Shows(Made(q, m).men, Next(e, m)) && Sheltering(Next(e, m), Black)
  {
    ShowsNext(q, e, m);
    assert Look(e, m.from) == At(q.men, m.from);
    hide Look, Shows, Made;
  }

  lemma OnlyKing(p: Position, turn: Color)
    requires Inv(p, turn)
    ensures OneKing(p.men)
  {
    hide UnmovedAtHome, OneKing, RightsKept;
  }

  /** Ten legal moves from the initial position, of which the ninth castles onto a
      square that a pawn attacks, and the tenth takes the king that castled. */
  lemma KingIsTaken() returns (ps: seq<Position>, ms: seq<Move>)
    ensures IsGame(ps, ms) && |ms| == 10
    ensures ms[8] == CastleMove(White, true)
    ensures KingAt(ps[9].men, White, Square(7, 6)) && Attacked(ps[9].men, Square(7, 6), Black)
    ensures forall s :: !KingAt(ps[10].men, White, s)
  {
    var g := Eighth();
    ps, ms := LastTwo(g);
  }

  lemma LastTwo(g: Play) returns (ps: seq<Position>, ms: seq<Move>)
    requires Going(g) && |g.ms| == 8
    requires Look(g.e, Square(6, 7)) == Some(Man(Black, Pawn, true))
    requires Look(g.e, Square(6, 6)) == Some(Man(White, Bishop, true))
    requires Look(g.e, Square(7, 5)) == None && Look(g.e, Square(7, 6)) == None
    requires Look(g.e, Square(6, 5)) == Home(Square(6, 5)) && Look(g.e, Square(6, 4)) == Home(Square(6, 4))
    requires Look(g.e, Square(7, 7)) == Home(Square(7, 7))
    ensures IsGame(ps, ms) && |ms| == 10
    ensures ms[8] == CastleMove(White, true)
    ensures KingAt(ps[9].men, White, Square(7, 6)) && Attacked(ps[9].men, Square(7, 6), Black)
    ensures forall s :: !KingAt(ps[10].men, White, s)
  {
    var castle, takes := CastleMove(White, true), PawnStep(Square(6, 7), Square(7, 6), Black);
    hide Look, Home, Shows, Sheltering, Inv, IsGame, LegalMoves, Made, Attacked, KingAt, Castled, MayCastle, IsCastling, CastleMove, PawnStep;
    GameLength(g.ps, g.ms);
    var p := g.ps[8];
    InvAlways(g.ps, g.ms, 8);
    MayCastleHere(p, g.e);
    CastleIsPlayable(p);
    CastledShows(p, g.e);
    var q := Made(p, castle);
    CastledLook(q, g.e);
    PawnTakesKing(q, Castled(g.e));
    GameExtends(g.ps, g.ms, castle);
    var qs, ns := g.ps + [q], g.ms + [castle];
    GameExtends(qs, ns, takes);
    ps, ms := qs + [Made(q, takes)], ns + [takes];
  }
}
