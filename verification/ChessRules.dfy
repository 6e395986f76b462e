/** Chess positions as values, and the moves the pieces can make before it is
    asked whether they leave their own king attacked. */
module ChessRules {
  import opened Wrappers

  datatype Color = White | Black
  datatype Kind = Pawn | Knight | Bishop | Rook | Queen | King
  datatype Square = Square(row: int, col: int)
  datatype Man = Man(color: Color, kind: Kind, hasMoved: bool)

  datatype Move = Move(
    from: Square, to: Square, isCastling: bool, isEnPassant: bool, isPromotion: bool, isDoublePush: bool,
    rookFromCol: int, rookToCol: int)

  type Men = map<Square, Man>
  datatype Position = Position(men: Men, ep: Square, rights: bv4)

  const NOWHERE: Square := Square(-1, -1)

  function Opposite(c: Color): Color {
    if c == White then Black else White
  }

  function Forward(c: Color): int {
    if c == White then -1 else 1
  }

  function StartRow(c: Color): int {
    if c == White then 6 else 1
  }

  function PromoRow(c: Color): int {
    if c == White then 0 else 7
  }

  predicate ValidPos(s: Square) {
    0 <= s.row < 8 && 0 <= s.col < 8
  }

  predicate OnBoard<T>(squares: map<Square, T>) {
    forall s :: s in squares ==> ValidPos(s)
  }

  function At<T>(squares: map<Square, T>, s: Square): Option<T> {
    if s in squares then Some(squares[s]) else None
  }

  predicate EnemyAt(men: Men, s: Square, c: Color) {
    s in men && men[s].color != c
  }

  predicate OpenTo(men: Men, s: Square, c: Color) {
    s in men ==> men[s].color != c
  }

  // ---- The moves, as they are listed ----

  datatype Dir = Dir(dr: int, dc: int)

  const BISHOP_DIRS := [Dir(-1, -1), Dir(-1, 1), Dir(1, -1), Dir(1, 1)]
  const ROOK_DIRS := [Dir(-1, 0), Dir(1, 0), Dir(0, -1), Dir(0, 1)]
  const ALL_DIRS := [Dir(-1, -1), Dir(-1, 0), Dir(-1, 1), Dir(0, -1), Dir(0, 1), Dir(1, -1), Dir(1, 0), Dir(1, 1)]
  const KNIGHT_HOPS := [Dir(-2, -1), Dir(-2, 1), Dir(-1, -2), Dir(-1, 2), Dir(1, -2), Dir(1, 2), Dir(2, -1), Dir(2, 1)]

  function Along(d: int, k: int): int {
    if d < 0 then -k else if d > 0 then k else 0
  }

  function Ray(from: Square, d: Dir, k: int): Square {
    Square(from.row + Along(d.dr, k), from.col + Along(d.dc, k))
  }

  /** The squares a slider visits in one direction, from its `k`th step on. */
  function RaySquares(men: Men, c: Color, from: Square, d: Dir, k: nat): seq<Square>
    decreases 8 - k
  {
    var s := Ray(from, d, k);
    if k >= 8 || !ValidPos(s) then []
    else if s !in men then [s] + RaySquares(men, c, from, d, k + 1)
    else if men[s].color != c then [s]
    else []
  }

  function Slides(men: Men, c: Color, from: Square, dirs: seq<Dir>): seq<Square> {
    if dirs == [] then [] else RaySquares(men, c, from, dirs[0], 1) + Slides(men, c, from, dirs[1..])
  }

  function Hop(from: Square, d: Dir): Square {
    Square(from.row + d.dr, from.col + d.dc)
  }

  function Hops(men: Men, c: Color, from: Square, offsets: seq<Dir>): seq<Square> {
    if offsets == [] then []
    else
      var s := Hop(from, offsets[0]);
      (if ValidPos(s) && OpenTo(men, s, c) then [s] else []) + Hops(men, c, from, offsets[1..])
  }

  function Plain(from: Square, to: Square): (m: Move)
    ensures m.from == from && m.to == to
  {
    Move(from, to, false, false, false, false, -1, -1)
  }

  function Plains(from: Square, tos: seq<Square>): seq<Move> {
    if tos == [] then [] else [Plain(from, tos[0])] + Plains(from, tos[1..])
  }

  function PawnStep(from: Square, to: Square, c: Color): (m: Move)
    ensures m.from == from && m.to == to
  {
    Plain(from, to).(isPromotion := to.row == PromoRow(c))
  }

  function DoublePush(from: Square, to: Square): (m: Move)
    ensures m.from == from && m.to == to
  {
    Plain(from, to).(isDoublePush := true)
  }

  function EnPassant(from: Square, to: Square): (m: Move)
    ensures m.from == from && m.to == to
  {
    Plain(from, to).(isEnPassant := true)
  }

  function PawnPushes(men: Men, c: Color, from: Square): seq<Move> {
    var one := Square(from.row + Forward(c), from.col);
    var two := Square(from.row + 2 * Forward(c), from.col);
    if ValidPos(one) && one !in men then
      [PawnStep(from, one, c)] + (if from.row == StartRow(c) && two !in men then [DoublePush(from, two)] else [])
    else []
  }

  function PawnCaptures(p: Position, c: Color, from: Square, dc: int): seq<Move> {
    var s := Square(from.row + Forward(c), from.col + dc);
    if !ValidPos(s) then []
    else (if EnemyAt(p.men, s, c) then [PawnStep(from, s, c)] else []) + (if s == p.ep then [EnPassant(from, s)] else [])
  }

  function RawMoves(p: Position, from: Square): seq<Move>
    requires from in p.men
  {
    var c := p.men[from].color;
    match p.men[from].kind
    case Pawn => PawnPushes(p.men, c, from) + PawnCaptures(p, c, from, -1) + PawnCaptures(p, c, from, 1)
    case Knight => Plains(from, Hops(p.men, c, from, KNIGHT_HOPS))
    case Bishop => Plains(from, Slides(p.men, c, from, BISHOP_DIRS))
    case Rook => Plains(from, Slides(p.men, c, from, ROOK_DIRS))
    case Queen => Plains(from, Slides(p.men, c, from, ALL_DIRS))
    case King => Plains(from, Hops(p.men, c, from, ALL_DIRS))
  }

  // ---- What they mean on the board ----

  function Abs(n: int): nat {
    if n < 0 then -n else n
  }

  function Sign(n: int): int {
    if n < 0 then -1 else if n > 0 then 1 else 0
  }

  function Distance(a: Square, b: Square): nat {
    var dr, dc := Abs(b.row - a.row), Abs(b.col - a.col);
    if dr >= dc then dr else dc
  }

  function DirOf(a: Square, b: Square): Dir {
    Dir(Sign(b.row - a.row), Sign(b.col - a.col))
  }

  predicate Diagonal(a: Square, b: Square) {
    a != b && Abs(b.row - a.row) == Abs(b.col - a.col)
  }

  predicate Straight(a: Square, b: Square) {
    a != b && (a.row == b.row || a.col == b.col)
  }

  /** No man stands strictly between two squares of one line. */
  predicate Clear(men: Men, a: Square, b: Square) {
    forall k :: 0 < k < Distance(a, b) ==> Ray(a, DirOf(a, b), k) !in men
  }

  /** The man on `from` attacks `to`, as in Article 3 of the FIDE Laws of Chess. */
  predicate Attacks(men: Men, from: Square, to: Square)
    requires from in men
  {
    var dr, dc := Abs(to.row - from.row), Abs(to.col - from.col);
    match men[from].kind
    case Pawn => to.row - from.row == Forward(men[from].color) && dc == 1
    case Knight => (dr == 1 && dc == 2) || (dr == 2 && dc == 1)
    case Bishop => Diagonal(from, to) && Clear(men, from, to)
    case Rook => Straight(from, to) && Clear(men, from, to)
    case Queen => (Diagonal(from, to) || Straight(from, to)) && Clear(men, from, to)
    case King => Distance(from, to) == 1
  }

  predicate IsPawnPush(men: Men, c: Color, m: Move) {
    var one := Square(m.from.row + Forward(c), m.from.col);
    && one !in men && m.to !in men
    && ((m.to == one && m == PawnStep(m.from, m.to, c))
        || (m.to == Square(m.from.row + 2 * Forward(c), m.from.col) && m.from.row == StartRow(c)
            && m == DoublePush(m.from, m.to)))
  }

  predicate IsPawnCapture(p: Position, c: Color, m: Move) {
    && m.to.row - m.from.row == Forward(c) && Abs(m.to.col - m.from.col) == 1
    && ((EnemyAt(p.men, m.to, c) && m == PawnStep(m.from, m.to, c)) || (m.to == p.ep && m == EnPassant(m.from, m.to)))
  }

  predicate IsRaw(p: Position, m: Move) {
    && m.from in p.men && ValidPos(m.to)
    && var c := p.men[m.from].color;
       if p.men[m.from].kind == Pawn then IsPawnPush(p.men, c, m) || IsPawnCapture(p, c, m)
       else m == Plain(m.from, m.to) && Attacks(p.men, m.from, m.to) && OpenTo(p.men, m.to, c)
  }

  // ---- The list and the meaning agree ----

  predicate UnitDir(d: Dir) {
    -1 <= d.dr <= 1 && -1 <= d.dc <= 1 && d != Dir(0, 0)
  }

  predicate OnRay(from: Square, d: Dir, to: Square) {
    to != from && to == Ray(from, d, Distance(from, to))
  }

  lemma RayDistance(from: Square, d: Dir, k: nat)
    requires UnitDir(d)
    ensures Distance(from, Ray(from, d, k)) == k
    ensures k > 0 ==> Ray(from, d, k) != from && DirOf(from, Ray(from, d, k)) == d
  {
  }

  /** The board is convex. */
  lemma RayInside(from: Square, d: Dir, j: nat, k: nat)
    requires UnitDir(d) && ValidPos(from) && ValidPos(Ray(from, d, k)) && j <= k
    ensures ValidPos(Ray(from, d, j)) && k < 8
  {
  }

  lemma RayStep(from: Square, d: Dir, k: nat, to: Square)
    requires UnitDir(d) && ValidPos(from) && k > 0
    ensures OnRay(from, d, to) && Distance(from, to) == k <==> to == Ray(from, d, k)
    ensures OnRay(from, d, to) && ValidPos(to) && k <= Distance(from, to) ==> ValidPos(Ray(from, d, k)) && k < 8
  {
    RayDistance(from, d, k);
    if OnRay(from, d, to) && ValidPos(to) && k <= Distance(from, to) {
      RayInside(from, d, k, Distance(from, to));
    }
  }

  lemma {:induction false} RayFrom(men: Men, c: Color, from: Square, d: Dir, k: nat, to: Square)
    requires UnitDir(d) && ValidPos(from) && k > 0
    ensures to in RaySquares(men, c, from, d, k) <==>
      && ValidPos(to) && OpenTo(men, to, c) && OnRay(from, d, to) && k <= Distance(from, to)
      && forall i :: k <= i < Distance(from, to) ==> Ray(from, d, i) !in men
    decreases 8 - k
  {
    hide UnitDir, OnRay, Distance, Ray, ValidPos;
    RayStep(from, d, k, to);
    if k < 8 && ValidPos(Ray(from, d, k)) && Ray(from, d, k) !in men {
      RayFrom(men, c, from, d, k + 1, to);
    }
  }

  predicate Reaches(men: Men, c: Color, from: Square, to: Square) {
    && ValidPos(to) && OpenTo(men, to, c) && (Diagonal(from, to) || Straight(from, to)) && Clear(men, from, to)
  }

  lemma RayReaches(men: Men, c: Color, from: Square, d: Dir, to: Square)
    requires UnitDir(d) && ValidPos(from)
    ensures to in RaySquares(men, c, from, d, 1) <==> Reaches(men, c, from, to) && DirOf(from, to) == d
  {
    RayFrom(men, c, from, d, 1, to);
    RayDistance(from, d, Distance(from, to));
    hide RaySquares;
    if DirOf(from, to) == d && (Diagonal(from, to) || Straight(from, to)) {
      assert OnRay(from, d, to);
    }
  }

  lemma {:induction false} SlidesReach(men: Men, c: Color, from: Square, dirs: seq<Dir>, to: Square)
    requires ValidPos(from) && forall d :: d in dirs ==> UnitDir(d)
    ensures to in Slides(men, c, from, dirs) <==> Reaches(men, c, from, to) && DirOf(from, to) in dirs
  {
    if dirs != [] {
      hide RaySquares, Reaches, DirOf;
      RayReaches(men, c, from, dirs[0], to);
      SlidesReach(men, c, from, dirs[1..], to);
      assert dirs == [dirs[0]] + dirs[1..];
    }
  }

  lemma {:induction false} HopsReach(men: Men, c: Color, from: Square, offsets: seq<Dir>, to: Square)
    ensures to in Hops(men, c, from, offsets) <==>
      ValidPos(to) && OpenTo(men, to, c) && Dir(to.row - from.row, to.col - from.col) in offsets
  {
    if offsets != [] {
      HopsReach(men, c, from, offsets[1..], to);
      assert offsets == [offsets[0]] + offsets[1..];
    }
  }

  lemma {:induction false} PlainsOf(from: Square, tos: seq<Square>, m: Move)
    ensures m in Plains(from, tos) <==> m == Plain(from, m.to) && m.to in tos
  {
    if tos != [] {
      PlainsOf(from, tos[1..], m);
    }
  }

  lemma PushesMean(men: Men, c: Color, from: Square, m: Move)
    requires ValidPos(from)
    ensures m in PawnPushes(men, c, from) <==> m.from == from && ValidPos(m.to) && IsPawnPush(men, c, m)
  {
    hide PawnStep, DoublePush;
  }

  lemma CapturesMean(p: Position, c: Color, from: Square, dc: int, m: Move)
    requires dc == 1 || dc == -1
    ensures m in PawnCaptures(p, c, from, dc) <==>
      m.from == from && ValidPos(m.to) && m.to.col - from.col == dc && IsPawnCapture(p, c, m)
  {
    hide PawnStep, EnPassant;
  }

  lemma PawnMovesMean(p: Position, c: Color, from: Square, m: Move)
    requires ValidPos(from)
    ensures m in PawnPushes(p.men, c, from) + PawnCaptures(p, c, from, -1) + PawnCaptures(p, c, from, 1)
      <==> m.from == from && ValidPos(m.to) && (IsPawnPush(p.men, c, m) || IsPawnCapture(p, c, m))
  {
    PushesMean(p.men, c, from, m);
    CapturesMean(p, c, from, -1, m);
    CapturesMean(p, c, from, 1, m);
    CaptureColumn(p, c, m);
    hide PawnPushes, PawnCaptures, IsPawnPush, IsPawnCapture;
  }

  lemma CaptureColumn(p: Position, c: Color, m: Move)
    ensures IsPawnCapture(p, c, m) ==> m.to.col - m.from.col == 1 || m.to.col - m.from.col == -1
  {
  }

  lemma DirsMean(from: Square, to: Square)
    ensures (Diagonal(from, to) || Straight(from, to)) ==>
      && (DirOf(from, to) in BISHOP_DIRS <==> Diagonal(from, to))
      && (DirOf(from, to) in ROOK_DIRS <==> Straight(from, to))
      && DirOf(from, to) in ALL_DIRS
    ensures Dir(to.row - from.row, to.col - from.col) in ALL_DIRS <==> Distance(from, to) == 1
    ensures var dr, dc := Abs(to.row - from.row), Abs(to.col - from.col);
            Dir(to.row - from.row, to.col - from.col) in KNIGHT_HOPS <==> (dr == 1 && dc == 2) || (dr == 2 && dc == 1)
  {
  }

  /** The loops of the six kinds list exactly the moves the rules describe. */
  lemma RawMeaning(p: Position, from: Square, m: Move)
    requires from in p.men && ValidPos(from)
    ensures m in RawMoves(p, from) <==> m.from == from && IsRaw(p, m)
  {
    var c := p.men[from].color;
    match p.men[from].kind
    case Pawn => PawnMovesMean(p, c, from, m);
    case Knight => KnightMeaning(p, from, m);
    case King => KingMeaning(p, from, m);
    case Bishop => SlideMeaning(p, from, BISHOP_DIRS, m);
    case Rook => SlideMeaning(p, from, ROOK_DIRS, m);
    case Queen => SlideMeaning(p, from, ALL_DIRS, m);
  }

  lemma KnightMeaning(p: Position, from: Square, m: Move)
    requires from in p.men && p.men[from].kind == Knight
    ensures m in Plains(from, Hops(p.men, p.men[from].color, from, KNIGHT_HOPS)) <==> m.from == from && IsRaw(p, m)
  {
    hide Hops, Plains, Plain, Distance, Abs, Diagonal, Straight, Clear, DirOf, ALL_DIRS, KNIGHT_HOPS, ROOK_DIRS, BISHOP_DIRS;
    var c := p.men[from].color;
    PlainsOf(from, Hops(p.men, c, from, KNIGHT_HOPS), m);
    HopsReach(p.men, c, from, KNIGHT_HOPS, m.to);
    DirsMean(from, m.to);
  }

  lemma KingMeaning(p: Position, from: Square, m: Move)
    requires from in p.men && p.men[from].kind == King
    ensures m in Plains(from, Hops(p.men, p.men[from].color, from, ALL_DIRS)) <==> m.from == from && IsRaw(p, m)
  {
    hide Hops, Plains, Plain, Distance, Abs, Diagonal, Straight, Clear, DirOf, ALL_DIRS, KNIGHT_HOPS, ROOK_DIRS, BISHOP_DIRS;
    var c := p.men[from].color;
    PlainsOf(from, Hops(p.men, c, from, ALL_DIRS), m);
    HopsReach(p.men, c, from, ALL_DIRS, m.to);
    DirsMean(from, m.to);
  }

  lemma DirsAreUnit()
    ensures forall d :: d in BISHOP_DIRS || d in ROOK_DIRS || d in ALL_DIRS ==> UnitDir(d)
    ensures BISHOP_DIRS != ROOK_DIRS && BISHOP_DIRS != ALL_DIRS && ROOK_DIRS != ALL_DIRS
  {
    assert |BISHOP_DIRS| == 4 && |ROOK_DIRS| == 4 && |ALL_DIRS| == 8;
    assert BISHOP_DIRS[0] != ROOK_DIRS[0];
  }

  lemma SlideMeaning(p: Position, from: Square, dirs: seq<Dir>, m: Move)
    requires from in p.men && ValidPos(from)
    requires match p.men[from].kind
             case Bishop => dirs == BISHOP_DIRS
             case Rook => dirs == ROOK_DIRS
             case Queen => dirs == ALL_DIRS
             case _ => false
    ensures m in Plains(from, Slides(p.men, p.men[from].color, from, dirs)) <==> m.from == from && IsRaw(p, m)
  {
    hide Slides, Plains, Plain, Distance, Abs, Diagonal, Straight, Clear, DirOf, KNIGHT_HOPS, UnitDir;
    var c := p.men[from].color;
    DirsAreUnit();
    hide BISHOP_DIRS, ROOK_DIRS, ALL_DIRS;
    PlainsOf(from, Slides(p.men, c, from, dirs), m);
    SlidesReach(p.men, c, from, dirs, m.to);
    DirsMean(from, m.to);
  }

  lemma {:induction false} PlainsConcat(from: Square, a: seq<Square>, b: seq<Square>)
    ensures Plains(from, a + b) == Plains(from, a) + Plains(from, b)
  {
    hide Plain;
    if a == [] {
      assert a + b == b;
    } else {
      PlainsConcat(from, a[1..], b);
      assert (a + b)[1..] == a[1..] + b;
      assert Plains(from, a + b) == [Plain(from, a[0])] + (Plains(from, a[1..]) + Plains(from, b));
    }
  }
}
