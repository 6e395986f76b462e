/** Check, legal moves and castling, against the FIDE Laws of Chess, over every
    position of every game. */
module ChessLegal {
  import opened ChessRules
  import opened ChessMoves
  import opened Wrappers

  // ---- Queries, as the game asks them ----

  function SquareAt(i: nat): Square {
    Square(i / 8, i % 8)
  }

  /** The raw moves of one colour, square after square. */
  function RawFrom(p: Position, c: Color, i: nat): seq<Move>
    decreases 64 - i
  {
    if i >= 64 then []
    else (if SquareAt(i) in p.men && p.men[SquareAt(i)].color == c then RawMoves(p, SquareAt(i)) else []) + RawFrom(p, c, i + 1)
  }

  function Targets(ms: seq<Move>): set<Square> {
    set m | m in ms :: m.to
  }

  function AttackedSquares(p: Position, side: Color): set<Square> {
    Targets(RawFrom(p, side, 0))
  }

  /** The first king found, row by row. */
  function FindKing(men: Men, c: Color, i: nat): Option<Square>
    decreases 64 - i
  {
    if i >= 64 then None
    else if SquareAt(i) in men && men[SquareAt(i)].color == c && men[SquareAt(i)].kind == King then Some(SquareAt(i))
    else FindKing(men, c, i + 1)
  }

  predicate InCheck(p: Position, c: Color) {
    var king := FindKing(p.men, c, 0);
    king.Some? && king.value in AttackedSquares(p, Opposite(c))
  }

  /** The raw moves that do not leave the mover in check. */
  function Kept(p: Position, c: Color, ms: seq<Move>): seq<Move> {
    if ms == [] then []
    else (if InCheck(Made(p, ms[0]), c) then [] else [ms[0]]) + Kept(p, c, ms[1..])
  }

  function Between(c: Color, kingside: bool): set<Square> {
    var row := BackRow(c);
    if kingside then {Square(row, 5), Square(row, 6)} else {Square(row, 1), Square(row, 2), Square(row, 3)}
  }

  /** The squares the king passes and arrives on. */
  function Transit(c: Color, kingside: bool): set<Square> {
    var row := BackRow(c);
    if kingside then {Square(row, 5), Square(row, 6)} else {Square(row, 2), Square(row, 3)}
  }

  predicate MayCastle(p: Position, c: Color, kingside: bool) {
    var king := FindKing(p.men, c, 0);
    var corner := Corner(c, kingside);
    && king.Some? && king.value in p.men && !p.men[king.value].hasMoved
    && p.rights & SideMask(c, kingside) != 0
    && corner in p.men && p.men[corner].kind == Rook && !p.men[corner].hasMoved
    && Between(c, kingside) !! p.men.Keys
    && !InCheck(p, c)
    && Transit(c, kingside) !! AttackedSquares(p, Opposite(c))
  }

  function Castles(p: Position, c: Color): seq<Move> {
    (if MayCastle(p, c, true) then [CastleMove(c, true)] else [])
    + (if MayCastle(p, c, false) then [CastleMove(c, false)] else [])
  }

  function LegalMoves(p: Position, c: Color): seq<Move> {
    Kept(p, c, RawFrom(p, c, 0)) + Castles(p, c)
  }

  // ---- What the queries mean ----

  function IndexOf(s: Square): int {
    8 * s.row + s.col
  }

  lemma SquareIndex(s: Square, i: nat)
    requires ValidPos(s)
    ensures 0 <= IndexOf(s) < 64 && (SquareAt(i) == s <==> i == IndexOf(s))
  {
  }

  lemma RawMovesMean(p: Position, c: Color, i: nat, m: Move)
    requires OnBoard(p.men) && i < 64
    ensures (SquareAt(i) in p.men && p.men[SquareAt(i)].color == c && m in RawMoves(p, SquareAt(i)))
      <==> IsRaw(p, m) && p.men[m.from].color == c && IndexOf(m.from) == i
  {
    hide RawMoves, IsPawnPush, IsPawnCapture, Attacks, SquareAt, IndexOf;
    if SquareAt(i) in p.men {
      RawMeaning(p, SquareAt(i), m);
      SquareIndex(SquareAt(i), i);
    }
    if IsRaw(p, m) {
      SquareIndex(m.from, i);
    }
  }

  lemma {:induction false} RawFromMeans(p: Position, c: Color, i: nat, m: Move)
    requires OnBoard(p.men)
    ensures m in RawFrom(p, c, i) <==> IsRaw(p, m) && p.men[m.from].color == c && IndexOf(m.from) >= i
    decreases 64 - i
  {
    hide RawMoves, IsPawnPush, IsPawnCapture, Attacks, SquareAt, IndexOf;
    if i < 64 {
      RawFromMeans(p, c, i + 1, m);
      RawMovesMean(p, c, i, m);
    } else if IsRaw(p, m) {
      SquareIndex(m.from, i);
    }
  }

  lemma RawListed(p: Position, c: Color, m: Move)
    requires OnBoard(p.men)
    ensures m in RawFrom(p, c, 0) <==> IsRaw(p, m) && p.men[m.from].color == c
  {
    hide IsPawnPush, IsPawnCapture, Attacks, RawFrom, IndexOf;
    RawFromMeans(p, c, 0, m);
    if IsRaw(p, m) {
      SquareIndex(m.from, 0);
    }
  }

  lemma {:induction false} FindKingFrom(men: Men, c: Color, i: nat)
    ensures var k := FindKing(men, c, i);
            && (k.Some? ==> k.value in men && men[k.value].color == c && men[k.value].kind == King)
            && (k.None? ==> forall j :: i <= j < 64 && SquareAt(j) in men ==>
                  men[SquareAt(j)].color != c || men[SquareAt(j)].kind != King)
    decreases 64 - i
  {
    hide SquareAt;
    if i < 64 {
      FindKingFrom(men, c, i + 1);
    }
  }

  predicate KingAt(men: Men, c: Color, k: Square) {
    k in men && men[k].color == c && men[k].kind == King
  }

  lemma KingFound(men: Men, c: Color, k: Square)
    requires OnBoard(men) && OneKing(men) && KingAt(men, c, k)
    ensures FindKing(men, c, 0) == Some(k)
  {
    FindKingFrom(men, c, 0);
    SquareIndex(k, 0);
    assert SquareAt(IndexOf(k)) == k by { SquareIndex(k, IndexOf(k)); }
  }

  // ---- Attack ----

  /** Some man of colour `side` attacks the square, as the Laws define it. */
  ghost predicate Attacked(men: Men, s: Square, side: Color) {
    exists f :: f in men && men[f].color == side && Attacks(men, f, s)
  }

  lemma AttackOnMan(p: Position, f: Square, s: Square)
    requires f in p.men && s in p.men && p.men[f].color != p.men[s].color && ValidPos(s) && p.ep !in p.men
    ensures (exists m :: IsRaw(p, m) && m.from == f && m.to == s) <==> Attacks(p.men, f, s)
  {
    hide Clear;
    var c := p.men[f].color;
    if Attacks(p.men, f, s) {
      var m := if p.men[f].kind == Pawn then PawnStep(f, s, c) else Plain(f, s);
      assert IsRaw(p, m);
    }
  }

  /** A man stands on an attacked square exactly if the other side could take it there. */
  lemma AttackedMan(p: Position, s: Square)
    requires OnBoard(p.men) && s in p.men && p.ep !in p.men
    ensures var side := Opposite(p.men[s].color); s in AttackedSquares(p, side) <==> Attacked(p.men, s, side)
  {
    hide RawFrom, IsRaw, Attacks;
    var side := Opposite(p.men[s].color);
    if s in AttackedSquares(p, side) {
      var m :| m in RawFrom(p, side, 0) && m.to == s;
      RawListed(p, side, m);
      RawFromMen(p, m);
      AttackOnMan(p, m.from, s);
    }
    if Attacked(p.men, s, side) {
      var f :| f in p.men && p.men[f].color == side && Attacks(p.men, f, s);
      AttackOnMan(p, f, s);
      var m :| IsRaw(p, m) && m.from == f && m.to == s;
      RawListed(p, side, m);
    }
  }

  lemma RawFromMen(p: Position, m: Move)
    requires IsRaw(p, m)
    ensures m.from in p.men
  {
    hide Attacks, IsPawnPush, IsPawnCapture;
  }

  /** A king in check is a king attacked. */
  lemma CheckIsAttack(p: Position, c: Color)
    requires OnBoard(p.men) && OneKing(p.men) && p.ep !in p.men
    ensures InCheck(p, c) <==> exists k :: KingAt(p.men, c, k) && Attacked(p.men, k, Opposite(c))
  {
    hide AttackedSquares, Attacked, FindKing, OneKing, OnBoard;
    var found := FindKing(p.men, c, 0);
    FindKingFrom(p.men, c, 0);
    if found.Some? {
      AttackedMan(p, found.value);
    }
    forall k | KingAt(p.men, c, k) ensures found == Some(k) {
      KingFound(p.men, c, k);
    }
  }

  lemma {:induction false} KeptMeans(p: Position, c: Color, ms: seq<Move>, m: Move)
    ensures m in Kept(p, c, ms) <==> m in ms && !InCheck(Made(p, m), c)
  {
    hide InCheck, Made;
    if ms != [] {
      KeptMeans(p, c, ms[1..], m);
      assert ms == [ms[0]] + ms[1..];
    }
  }

  lemma CastlesMean(p: Position, c: Color, m: Move)
    ensures m in Castles(p, c) <==> exists kingside :: m == CastleMove(c, kingside) && MayCastle(p, c, kingside)
    ensures m in Castles(p, c) ==> m.isCastling
  {
    hide MayCastle;
    assert m in Castles(p, c) ==>
      (m == CastleMove(c, true) && MayCastle(p, c, true)) || (m == CastleMove(c, false) && MayCastle(p, c, false));
  }

  /** The moves other than castling that are kept are exactly the raw moves after
      which the mover's king is not attacked. */
  lemma LegalMeaning(p: Position, c: Color, m: Move)
    requires Inv(p, c) && !m.isCastling
    ensures m in LegalMoves(p, c) <==>
      && IsRaw(p, m) && p.men[m.from].color == c
      && forall k :: KingAt(Made(p, m).men, c, k) ==> !Attacked(Made(p, m).men, k, Opposite(c))
  {
    hide RawFrom, Castles, Kept, IsRaw, Made, InCheck, Attacked, EpOk, OnBoard, OneKing, UnmovedAtHome, PawnsPromoted, RightsKept;
    KeptMeans(p, c, RawFrom(p, c, 0), m);
    CastlesMean(p, c, m);
    RawListed(p, c, m);
    if m in RawFrom(p, c, 0) {
      InvKept(p, c, m);
      EpEmpty(Made(p, m), Opposite(c));
      assert OnBoard(Made(p, m).men) && OneKing(Made(p, m).men);
      CheckIsAttack(Made(p, m), c);
    }
  }

  lemma EpEmpty(p: Position, turn: Color)
    requires Inv(p, turn)
    ensures p.ep !in p.men
  {
    hide UnmovedAtHome, OneKing, PawnsPromoted, RightsKept;
  }

  // ---- The list of moves, man by man ----

  /** The squares of one colour's men, row by row. */
  function Standing(men: Men, c: Color, i: nat): seq<Square>
    decreases 64 - i
  {
    if i >= 64 then []
    else (if SquareAt(i) in men && men[SquareAt(i)].color == c then [SquareAt(i)] else []) + Standing(men, c, i + 1)
  }

  function RawOf(p: Position, spots: seq<Square>): seq<Move> {
    if spots == [] then []
    else (if spots[0] in p.men then RawMoves(p, spots[0]) else []) + RawOf(p, spots[1..])
  }

  lemma {:induction false} RawOfConcat(p: Position, a: seq<Square>, b: seq<Square>)
    ensures RawOf(p, a + b) == RawOf(p, a) + RawOf(p, b)
  {
    hide RawMoves;
    if a == [] {
      assert a + b == b;
    } else {
      RawOfConcat(p, a[1..], b);
      var first := if a[0] in p.men then RawMoves(p, a[0]) else [];
      assert (a + b)[0] == a[0] && (a + b)[1..] == a[1..] + b;
      assert first + (RawOf(p, a[1..]) + RawOf(p, b)) == (first + RawOf(p, a[1..])) + RawOf(p, b);
    }
  }

  lemma RawOfOne(p: Position, s: Square)
    ensures RawOf(p, [s]) == if s in p.men then RawMoves(p, s) else []
  {
    hide RawMoves;
    var none: seq<Square> := [];
    assert [s][1..] == none;
  }

  lemma {:induction false} RawOfStanding(p: Position, c: Color, i: nat)
    ensures RawOf(p, Standing(p.men, c, i)) == RawFrom(p, c, i)
    ensures forall s :: s in Standing(p.men, c, i) ==> s in p.men && p.men[s].color == c
    decreases 64 - i
  {
    hide RawMoves, SquareAt, RawOf;
    if i < 64 {
      RawOfStanding(p, c, i + 1);
      var here := if SquareAt(i) in p.men && p.men[SquareAt(i)].color == c then [SquareAt(i)] else [];
      RawOfConcat(p, here, Standing(p.men, c, i + 1));
      RawOfOne(p, SquareAt(i));
    }
    RawOfNone(p);
  }

  lemma RawOfNone(p: Position)
    ensures RawOf(p, []) == []
  {
  }

  lemma {:induction false} KeptConcat(p: Position, c: Color, a: seq<Move>, b: seq<Move>)
    ensures Kept(p, c, a + b) == Kept(p, c, a) + Kept(p, c, b)
  {
    hide InCheck, Made;
    if a == [] {
      assert a + b == b;
    } else {
      KeptConcat(p, c, a[1..], b);
      var first := if InCheck(Made(p, a[0]), c) then [] else [a[0]];
      assert (a + b)[0] == a[0] && (a + b)[1..] == a[1..] + b;
      assert first + (Kept(p, c, a[1..]) + Kept(p, c, b)) == (first + Kept(p, c, a[1..])) + Kept(p, c, b);
    }
  }
}
