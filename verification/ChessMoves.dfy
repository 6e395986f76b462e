/** Making and undoing a move, and what every position of a game satisfies. */
module ChessMoves {
  import opened ChessRules
  import opened Wrappers

  const CASTLE_WK: bv4 := 1
  const CASTLE_WQ: bv4 := 2
  const CASTLE_BK: bv4 := 4
  const CASTLE_BQ: bv4 := 8
  const CASTLE_ALL: bv4 := 15

  function Without(rights: bv4, mask: bv4): bv4 {
    rights & !mask
  }

  function RightsAfter(rights: bv4, man: Man, from: Square): bv4 {
    if man.kind == King then
      Without(rights, if man.color == White then CASTLE_WK | CASTLE_WQ else CASTLE_BK | CASTLE_BQ)
    else if man.kind == Rook then
      if from == Square(7, 0) then Without(rights, CASTLE_WQ)
      else if from == Square(7, 7) then Without(rights, CASTLE_WK)
      else if from == Square(0, 0) then Without(rights, CASTLE_BQ)
      else if from == Square(0, 7) then Without(rights, CASTLE_BK)
      else rights
    else rights
  }

  // ---- Squares: the same for the board's pieces and for the men they stand for ----

  function Victim(m: Move): Square {
    if m.isEnPassant then Square(m.from.row, m.to.col) else m.to
  }

  function RookFrom(m: Move): Square {
    Square(m.from.row, m.rookFromCol)
  }

  function RookTo(m: Move): Square {
    Square(m.from.row, m.rookToCol)
  }

  function Put<T>(s: map<Square, T>, at: Square, x: Option<T>): map<Square, T> {
    if x.Some? then s[at := x.value] else s - {at}
  }

  function Placed<T>(s: map<Square, T>, m: Move, who: T): map<Square, T> {
    ((if m.isEnPassant then s - {Victim(m)} else s) - {m.from})[m.to := who]
  }

  function Unplaced<T>(s: map<Square, T>, m: Move, who: T, captured: Option<T>): map<Square, T> {
    Put((s - {m.to})[m.from := who], Victim(m), captured)
  }

  function Shifted<T>(s: map<Square, T>, a: Square, b: Square, x: T): map<Square, T> {
    (s - {a})[b := x]
  }

  /** Taking a move back puts every square right exactly when an en passant
      capture moved to an empty square. */
  lemma PlacedUndone<T>(s: map<Square, T>, m: Move, who: T)
    requires m.from in s && m.from != m.to
    requires m.isEnPassant ==> m.from.row != m.to.row && m.from.col != m.to.col
    ensures Unplaced(Placed(s, m, who), m, s[m.from], At(s, Victim(m))) == s
      <==> (m.isEnPassant ==> m.to !in s)
  {
    var back := Unplaced(Placed(s, m, who), m, s[m.from], At(s, Victim(m)));
    assert m.isEnPassant ==> m.to !in back;
    assert m.isEnPassant && m.to !in s ==> back == s;
    assert !m.isEnPassant ==> back == s;
  }

  lemma ShiftedUndone<T>(s: map<Square, T>, a: Square, b: Square, x: T)
    requires a in s && b !in s
    ensures Shifted(Shifted(s, a, b, x), b, a, s[a]) == s
  {
  }

  /** What a move does to the pieces on the squares, and what undoing it does. */
  function MadeOn<T>(s: map<Square, T>, m: Move, who: T): map<Square, T> {
    CastledOn(Placed(s, m, who), m)
  }

  function CastledOn<T>(s: map<Square, T>, m: Move): map<Square, T> {
    if m.isCastling && RookFrom(m) in s then Shifted(s, RookFrom(m), RookTo(m), s[RookFrom(m)]) else s
  }

  function UndoneOn<T>(s: map<Square, T>, m: Move, who: T, captured: Option<T>): map<Square, T> {
    var back := Unplaced(s, m, who, captured);
    if m.isCastling && RookTo(m) in back then Shifted(back, RookTo(m), RookFrom(m), back[RookTo(m)]) else back
  }

  lemma PlacedAgain<T>(s: map<Square, T>, m: Move, x: T, y: T)
    ensures Placed(s, m, x)[m.to := y] == Placed(s, m, y)
  {
  }

  lemma CastledUndone<T>(s: map<Square, T>, m: Move, who: T)
    requires m.isCastling && !m.isEnPassant && m.from in s && m.to !in s && RookFrom(m) in s && RookTo(m) !in s
    requires m.from != RookFrom(m) && m.to != RookTo(m)
    ensures UndoneOn(MadeOn(s, m, who), m, s[m.from], None) == s
  {
    var made := MadeOn(s, m, who);
    PlacedAt(s, m, who);
    assert made == Shifted(Placed(s, m, who), RookFrom(m), RookTo(m), s[RookFrom(m)]);
    var back := Unplaced(made, m, s[m.from], None);
    assert back == Shifted(s, RookFrom(m), RookTo(m), s[RookFrom(m)]);
    ShiftedUndone(s, RookFrom(m), RookTo(m), s[RookFrom(m)]);
  }

  /** What a playable move looks like on the squares. */
  predicate Fits<T>(s: map<Square, T>, m: Move) {
    && m.from in s && ValidPos(m.from) && ValidPos(m.to) && m.from != m.to
    && (m.isEnPassant ==>
          && !m.isPromotion && !m.isCastling && m.to !in s
          && m.from.row != m.to.row && m.from.col != m.to.col)
    && (m.isCastling ==>
          && !m.isPromotion && m.to !in s && RookFrom(m) in s && RookTo(m) !in s
          && m.from != RookFrom(m) && m.to != RookTo(m) && ValidPos(RookTo(m)) && ValidPos(RookFrom(m)))
  }

  lemma OnUndone<T>(s: map<Square, T>, m: Move, who: T)
    requires Fits(s, m)
    ensures UndoneOn(MadeOn(s, m, who), m, s[m.from], At(s, Victim(m))) == s
    ensures At(MadeOn(s, m, who), m.to) == Some(who)
  {
    hide Placed, Unplaced, ValidPos;
    PlacedAt(s, m, who);
    if m.isCastling {
      CastledUndone(s, m, who);
    } else {
      PlacedUndone(s, m, who);
    }
  }

  predicate Distinct<T(==)>(s: map<Square, T>) {
    forall a, b :: a in s && b in s && s[a] == s[b] ==> a == b
  }

  /** The captured piece leaves the squares, and so does a promoted pawn. */
  lemma Leaves<T>(s: map<Square, T>, m: Move, who: T)
    requires Fits(s, m) && Distinct(s) && (who in s.Values ==> who == s[m.from])
    ensures Victim(m) in s ==> s[Victim(m)] !in MadeOn(s, m, who).Values
    ensures who != s[m.from] ==> s[m.from] !in MadeOn(s, m, who).Values
    ensures Victim(m) != m.from
    ensures MadeOn(s, m, who).Values <= s.Values + {who}
  {
    PlacedAt(s, m, who);
    hide Placed, ValidPos;
    var made := MadeOn(s, m, who);
    assert forall a :: a in made ==> made[a] == who || (exists b :: b in s && b != m.from && b != Victim(m) && made[a] == s[b]);
  }

  // ---- Positions ----

  datatype Undo = Undo(captured: Option<Man>, promotedFrom: Option<Man>, hadMoved: bool, ep: Square, rights: bv4)

  function Arriving(man: Man, m: Move): Man {
    if m.isPromotion then Man(man.color, Queen, true) else man.(hasMoved := true)
  }

  function CastledMen(men: Men, m: Move): Men {
    if m.isCastling && RookFrom(m) in men
    then Shifted(men, RookFrom(m), RookTo(m), men[RookFrom(m)].(hasMoved := true))
    else men
  }

  function Made(p: Position, m: Move): Position {
    if m.from !in p.men then p
    else
      var man := p.men[m.from];
      var castled := CastledMen(Placed(p.men, m, Arriving(man, m)), m);
      var ep := if m.isDoublePush then Square(m.from.row + Forward(man.color), m.from.col) else NOWHERE;
      Position(castled, ep, RightsAfter(p.rights, man, m.from))
  }

  function Recorded(p: Position, m: Move): Undo
    requires m.from in p.men
  {
    var man := p.men[m.from];
    Undo(At(p.men, Victim(m)), if m.isPromotion then Some(man.(hasMoved := true)) else None, man.hasMoved, p.ep, p.rights)
  }

  function Undone(p: Position, m: Move, u: Undo): Position {
    var man := if m.isPromotion then u.promotedFrom else At(p.men, m.to);
    if man.None? then p
    else
      var men := Unplaced(p.men, m, man.value.(hasMoved := u.hadMoved), u.captured);
      var castled :=
        if m.isCastling && RookTo(m) in men
        then Shifted(men, RookTo(m), RookFrom(m), men[RookTo(m)].(hasMoved := false))
        else men;
      Position(castled, u.ep, u.rights)
  }

  /** A castling move between unmoved men, with nothing in the way of either. */
  predicate CastlingFits(men: Men, m: Move) {
    && m.isCastling && !m.isEnPassant && !m.isPromotion && !m.isDoublePush
    && m.from in men && RookFrom(m) in men && !men[m.from].hasMoved && !men[RookFrom(m)].hasMoved
    && m.to !in men && RookTo(m) !in men
    && m.from != RookFrom(m) && m.to != RookTo(m)
  }

  lemma UndoRaw(p: Position, m: Move)
    requires IsRaw(p, m)
    ensures m.from in p.men
    ensures Undone(Made(p, m), m, Recorded(p, m)) == p <==> (m.isEnPassant ==> p.ep !in p.men)
  {
    RawShape(p, m);
    hide IsRaw, Attacks, Placed, Unplaced;
    var man := p.men[m.from];
    var arriving := Arriving(man, m);
    PlacedUndone(p.men, m, arriving);
    assert At(Placed(p.men, m, arriving), m.to) == Some(arriving) by { PlacedAt(p.men, m, arriving); }
    assert man.(hasMoved := true).(hasMoved := man.hasMoved) == man;
  }

  lemma PlacedAt<T>(s: map<Square, T>, m: Move, who: T)
    ensures m.to in Placed(s, m, who) && Placed(s, m, who)[m.to] == who
    ensures forall a :: a in Placed(s, m, who) && a != m.to ==>
      a in s && Placed(s, m, who)[a] == s[a] && a != m.from && (m.isEnPassant ==> a != Victim(m))
    ensures forall a :: a in s && a != m.from && (m.isEnPassant ==> a != Victim(m)) ==> a in Placed(s, m, who)
  {
  }

  lemma RawShape(p: Position, m: Move)
    requires IsRaw(p, m)
    ensures m.from != m.to && !m.isCastling
    ensures m.isEnPassant ==>
      m.from.row != m.to.row && m.from.col != m.to.col && m.to == p.ep && !m.isPromotion && p.men[m.from].kind == Pawn
    ensures m.isPromotion ==> p.men[m.from].kind == Pawn
  {
    hide Clear;
  }

  lemma UndoCastling(p: Position, m: Move)
    requires CastlingFits(p.men, m)
    ensures Undone(Made(p, m), m, Recorded(p, m)) == p
  {
    var man := p.men[m.from];
    var rook := p.men[RookFrom(m)];
    var placed := Placed(p.men, m, man.(hasMoved := true));
    PlacedAt(p.men, m, man.(hasMoved := true));
    var made := Made(p, m).men;
    assert made == Shifted(placed, RookFrom(m), RookTo(m), rook.(hasMoved := true));
    var back := Unplaced(made, m, man, None);
    assert back == Shifted(p.men, RookFrom(m), RookTo(m), rook.(hasMoved := true));
    ShiftedUndone(p.men, RookFrom(m), RookTo(m), rook.(hasMoved := true));
    assert At(made, m.to) == Some(man.(hasMoved := true));
  }

  // ---- What every position of a game satisfies ----

  function BackRow(c: Color): int {
    if c == White then 7 else 0
  }

  function BackRank(col: int): Kind {
    if col == 0 || col == 7 then Rook
    else if col == 1 || col == 6 then Knight
    else if col == 2 || col == 5 then Bishop
    else if col == 3 then Queen
    else King
  }

  predicate IsHome(s: Square, man: Man) {
    || (s.row == BackRow(man.color) && man.kind == BackRank(s.col))
    || (s.row == StartRow(man.color) && man.kind == Pawn)
  }

  predicate UnmovedAtHome(men: Men) {
    forall s :: s in men && !men[s].hasMoved ==> IsHome(s, men[s])
  }

  predicate OneKing(men: Men) {
    forall a, b :: a in men && b in men && men[a].kind == King && men[b].kind == King && men[a].color == men[b].color
      ==> a == b
  }

  predicate PawnsPromoted(men: Men) {
    forall s :: s in men && men[s].kind == Pawn ==> s.row != PromoRow(men[s].color)
  }

  /** The en passant square is empty, and the pawn just pushed stands behind it. */
  predicate EpOk(p: Position, turn: Color) {
    p.ep != NOWHERE ==>
      && p.ep !in p.men
      && p.ep.row == (if turn == White then 2 else 5)
      && var behind := Square(p.ep.row - Forward(turn), p.ep.col);
         behind in p.men && p.men[behind] == Man(Opposite(turn), Pawn, true)
  }

  function SideMask(c: Color, kingside: bool): bv4 {
    if c == White then (if kingside then CASTLE_WK else CASTLE_WQ) else (if kingside then CASTLE_BK else CASTLE_BQ)
  }

  function Corner(c: Color, kingside: bool): Square {
    Square(BackRow(c), if kingside then 7 else 0)
  }

  function KingHome(c: Color): Square {
    Square(BackRow(c), 4)
  }

  predicate Unmoved(men: Men, s: Square, c: Color, k: Kind) {
    s in men && men[s] == Man(c, k, false)
  }

  /** The mask has not lost the right of an unmoved king and rook. */
  predicate RightsKept(p: Position) {
    forall c, kingside ::
      Unmoved(p.men, KingHome(c), c, King) && Unmoved(p.men, Corner(c, kingside), c, Rook)
      ==> p.rights & SideMask(c, kingside) != 0
  }

  predicate Inv(p: Position, turn: Color) {
    && OnBoard(p.men) && UnmovedAtHome(p.men) && OneKing(p.men) && PawnsPromoted(p.men)
    && EpOk(p, turn) && RightsKept(p)
  }

  function CastleMove(c: Color, kingside: bool): Move {
    if kingside then Move(KingHome(c), Square(BackRow(c), 6), true, false, false, false, 7, 5)
    else Move(KingHome(c), Square(BackRow(c), 2), true, false, false, false, 0, 3)
  }

  /** A castling move pairs the mover's own unmoved king and rook, across empty squares. */
  predicate IsCastling(men: Men, c: Color, m: Move) {
    exists kingside :: m == CastleMove(c, kingside) && CastlingPair(men, c, kingside)
  }

  predicate CastlingPair(men: Men, c: Color, kingside: bool) {
    && Unmoved(men, KingHome(c), c, King) && Unmoved(men, Corner(c, kingside), c, Rook)
    && CastleMove(c, kingside).to !in men && RookTo(CastleMove(c, kingside)) !in men
  }

  predicate Playable(p: Position, turn: Color, m: Move) {
    || (IsRaw(p, m) && p.men[m.from].color == turn)
    || IsCastling(p.men, turn, m)
  }

  lemma CastlingShape(men: Men, c: Color, m: Move)
    requires IsCastling(men, c, m)
    ensures CastlingFits(men, m) && men[m.from].kind == King && men[RookFrom(m)].kind == Rook
    ensures ValidPos(m.to) && ValidPos(RookTo(m))
  {
  }

  lemma PlayableFits(p: Position, turn: Color, m: Move)
    requires Inv(p, turn) && Playable(p, turn, m)
    ensures Fits(p.men, m)
  {
    hide IsRaw, UnmovedAtHome, OneKing, PawnsPromoted, RightsKept, IsCastling;
    if IsRaw(p, m) {
      RawShape(p, m);
      RawValid(p, m);
    } else {
      CastlingShape(p.men, turn, m);
    }
  }

  /** Every move of a game can be taken back without a trace. */
  lemma UndoRestores(p: Position, turn: Color, m: Move)
    requires Inv(p, turn) && Playable(p, turn, m)
    ensures m.from in p.men && Undone(Made(p, m), m, Recorded(p, m)) == p
  {
    hide IsRaw, OnBoard, UnmovedAtHome, OneKing, PawnsPromoted, RightsKept, Made, Undone, Recorded, IsCastling, CastlingFits;
    if IsRaw(p, m) {
      RawShape(p, m);
      RawValid(p, m);
      UndoRaw(p, m);
    } else {
      CastlingShape(p.men, turn, m);
      CastlingFrom(p.men, m);
      UndoCastling(p, m);
    }
  }

  lemma CastlingFrom(men: Men, m: Move)
    requires CastlingFits(men, m)
    ensures m.from in men && RookFrom(m) in men
  {
  }

  /** En passant always takes the pawn the opponent has just pushed. */
  lemma EnPassantTakesPawn(p: Position, turn: Color, m: Move)
    requires Inv(p, turn) && IsRaw(p, m) && p.men[m.from].color == turn && m.isEnPassant
    ensures m.to !in p.men && Victim(m) in p.men && p.men[Victim(m)] == Man(Opposite(turn), Pawn, true)
  {
    hide OnBoard, UnmovedAtHome, OneKing, PawnsPromoted, RightsKept, Attacks, IsPawnPush;
    RawShape(p, m);
    if IsPawnPush(p.men, turn, m) {
      PushShape(p.men, turn, m);
    }
  }

  lemma PushShape(men: Men, c: Color, m: Move)
    requires IsPawnPush(men, c, m)
    ensures !m.isEnPassant && m.from.col == m.to.col
    ensures m.isDoublePush ==>
      && m.from.row == StartRow(c) && m.to == Square(m.from.row + 2 * Forward(c), m.from.col)
      && Square(m.from.row + Forward(c), m.from.col) !in men && !m.isPromotion
    ensures !m.isDoublePush ==> m == PawnStep(m.from, m.to, c) && m.to.row == m.from.row + Forward(c)
  {
  }

  // ---- A move keeps it ----

  lemma MadeAt(p: Position, turn: Color, m: Move)
    requires Playable(p, turn, m)
    ensures m.from in p.men && p.men[m.from].color == turn && ValidPos(m.to)
    ensures m.to in Made(p, m).men && Made(p, m).men[m.to] == Arriving(p.men[m.from], m)
    ensures forall s :: s in Made(p, m).men && s != m.to ==>
      || (s in p.men && s != m.from && Made(p, m).men[s] == p.men[s])
      || (m.isCastling && ValidPos(s) && Made(p, m).men[s] == Man(turn, Rook, true))
    ensures m.isPromotion ==> p.men[m.from].kind == Pawn
  {
    hide IsRaw, Placed, CastlingFits, Arriving;
    if IsRaw(p, m) {
      RawShape(p, m);
      RawValid(p, m);
      PlacedAt(p.men, m, Arriving(p.men[m.from], m));
    } else {
      CastlingShape(p.men, turn, m);
      CastlingMade(p, turn, m);
    }
  }

  lemma RawValid(p: Position, m: Move)
    requires IsRaw(p, m)
    ensures m.from in p.men && ValidPos(m.to)
  {
    hide IsPawnPush, IsPawnCapture, Attacks;
  }

  lemma CastlingMade(p: Position, c: Color, m: Move)
    requires IsCastling(p.men, c, m)
    ensures m.from in p.men && RookFrom(m) in p.men && !m.isPromotion
    ensures p.men[m.from].color == c && p.men[RookFrom(m)] == Man(c, Rook, false)
    ensures Made(p, m).men == Shifted(Placed(p.men, m, Man(c, King, true)), RookFrom(m), RookTo(m), Man(c, Rook, true))
    ensures m.to in Made(p, m).men && Made(p, m).men[m.to] == Man(c, King, true) == Arriving(p.men[m.from], m)
    ensures forall s :: s in Made(p, m).men && s != m.to ==>
      (s in p.men && s != m.from && Made(p, m).men[s] == p.men[s]) || (s == RookTo(m) && Made(p, m).men[s] == Man(c, Rook, true))
  {
    hide Placed;
    PlacedAt(p.men, m, Man(c, King, true));
  }

  lemma KeepsPlaces(p: Position, turn: Color, m: Move)
    requires OnBoard(p.men) && UnmovedAtHome(p.men) && OneKing(p.men) && Playable(p, turn, m)
    ensures OnBoard(Made(p, m).men) && UnmovedAtHome(Made(p, m).men) && OneKing(Made(p, m).men)
  {
    MadeAt(p, turn, m);
    hide Playable, Made, IsHome, ValidPos;
  }

  lemma KeepsRights(p: Position, turn: Color, m: Move)
    requires OneKing(p.men) && RightsKept(p) && Playable(p, turn, m)
    ensures RightsKept(Made(p, m))
  {
    MadeAt(p, turn, m);
    var q := Made(p, m);
    assert q.rights == RightsAfter(p.rights, p.men[m.from], m.from);
    hide Playable, Made, RightsAfter;
    forall c, kingside | Unmoved(q.men, KingHome(c), c, King) && Unmoved(q.men, Corner(c, kingside), c, Rook)
      ensures q.rights & SideMask(c, kingside) != 0
    {
      assert Unmoved(p.men, KingHome(c), c, King) && Unmoved(p.men, Corner(c, kingside), c, Rook);
      assert m.from != KingHome(c) && m.from != Corner(c, kingside);
      MaskKept(p.rights, p.men[m.from], m.from, c, kingside);
    }
  }

  /** A right is lost only by a king of that colour, or by a rook leaving that corner. */
  lemma MaskKept(rights: bv4, man: Man, from: Square, c: Color, kingside: bool)
    requires rights & SideMask(c, kingside) != 0
    requires !(man.kind == King && man.color == c) && from != Corner(c, kingside)
    ensures RightsAfter(rights, man, from) & SideMask(c, kingside) != 0
  {
  }

  lemma RightsShrink(p: Position, m: Move)
    ensures Made(p, m).rights & !p.rights == 0
  {
    hide Placed;
  }

  lemma KeepsPawns(p: Position, turn: Color, m: Move)
    requires PawnsPromoted(p.men) && EpOk(p, turn) && Playable(p, turn, m)
    ensures PawnsPromoted(Made(p, m).men)
  {
    MadeAt(p, turn, m);
    PawnArrives(p, turn, m);
    hide Playable, Made;
  }

  lemma PawnArrives(p: Position, turn: Color, m: Move)
    requires EpOk(p, turn) && Playable(p, turn, m) && m.from in p.men
    ensures Arriving(p.men[m.from], m).kind == Pawn ==> m.to.row != PromoRow(turn)
  {
    hide Attacks;
  }

  lemma KeepsEp(p: Position, turn: Color, m: Move)
    requires Playable(p, turn, m)
    ensures EpOk(Made(p, m), Opposite(turn))
  {
    MadeAt(p, turn, m);
    if m.isDoublePush {
      DoublePushRaw(p, turn, m);
      RawShape(p, m);
      hide Playable;
    }
  }

  lemma DoublePushRaw(p: Position, turn: Color, m: Move)
    requires Playable(p, turn, m) && m.isDoublePush
    ensures IsRaw(p, m) && IsPawnPush(p.men, turn, m) && !m.isCastling && !m.isPromotion
  {
  }

  lemma InvKept(p: Position, turn: Color, m: Move)
    requires Inv(p, turn) && Playable(p, turn, m)
    ensures Inv(Made(p, m), Opposite(turn))
  {
    KeepsPlaces(p, turn, m);
    KeepsRights(p, turn, m);
    KeepsPawns(p, turn, m);
    KeepsEp(p, turn, m);
    hide OnBoard, UnmovedAtHome, OneKing, PawnsPromoted, RightsKept, EpOk, Playable, Made;
  }
}
