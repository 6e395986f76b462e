/** What the Jac0 lexer makes of a source text, as functions of what is left to read. */
module JacTokens {
  import opened Wrappers

  datatype TT =
    | Name | Number | String | LBrace | RBrace | LParen | RParen | LBracket | RBracket
    | Semi | Colon | Comma | Dot | QDot | AtSign | Arrow | Ellipsis | Op

  datatype Token = Token(kind: TT, value: string, backtick: bool)

  /** The character classes of the host language. Its digits and letters are among
      its alphanumerics, which include no blank and no character the lexer treats on
      its own, and no letter that marks a string or a number is a digit. */
  datatype Classes = Classes(digit: char -> bool, alpha: char -> bool, alnum: char -> bool, space: char -> bool)

  const SINGLES: string := "{}()[];:,.@"
  const OP_CHARS: string := "=+-*/%&|^~<>!?"
  const QUOTES: string := "\"'"
  const PREFIXES: string := "fFrRbBuU"
  const MARKERS: string := "xXoOeEjJ"
  const BLANKS: string := " \t\r\n"
  const OTHERS: string := "#`_\\"

  ghost predicate Sane(u: Classes) {
    && (forall c :: u.digit(c) || u.alpha(c) ==> u.alnum(c))
    && (forall c :: u.digit(c) ==> c !in PREFIXES && c !in MARKERS)
    && (forall c :: u.alnum(c) ==> c !in SINGLES && c !in OP_CHARS && c !in QUOTES && c !in BLANKS && c !in OTHERS)
    && u.space(' ') && u.space('\n') && (forall c :: c in QUOTES ==> !u.space(c))
  }

  // ---- Blanks and comments ----

  function AfterBlock(s: string): (r: string)
    ensures |r| <= |s|
  {
    if s == "" then "" else if |s| > 1 && s[0] == '*' && s[1] == '#' then s[2..] else AfterBlock(s[1..])
  }

  function AfterLine(s: string): (r: string)
    ensures |r| <= |s|
    ensures s != "" && s[0] != '\n' ==> |r| < |s|
  {
    if s == "" || s[0] == '\n' then s else AfterLine(s[1..])
  }

  function Skip(s: string): (r: string)
    ensures |r| <= |s|
    decreases |s|
  {
    if s == "" then ""
    else if s[0] in BLANKS then Skip(s[1..])
    else if s[0] == '#' then Skip(if |s| > 1 && s[1] == '*' then AfterBlock(s[2..]) else AfterLine(s))
    else s
  }

  // ---- Runs of characters ----

  predicate IsDigit(u: Classes, c: char) {
    u.digit(c) || c == '_'
  }

  predicate IsWord(u: Classes, c: char) {
    u.alnum(c) || c == '_'
  }

  function DigitRun(u: Classes, s: string): (n: nat)
    ensures n <= |s|
  {
    if s != "" && IsDigit(u, s[0]) then 1 + DigitRun(u, s[1..]) else 0
  }

  function WordRun(u: Classes, s: string): (n: nat)
    ensures n <= |s|
  {
    if s != "" && IsWord(u, s[0]) then 1 + WordRun(u, s[1..]) else 0
  }

  function PrefixRun(s: string): (n: nat)
    ensures n <= |s|
    ensures n < |s| ==> s[n] !in PREFIXES
  {
    if s != "" && s[0] in PREFIXES then 1 + PrefixRun(s[1..]) else 0
  }

  predicate HeadIn(s: string, chars: string) {
    s != "" && s[0] in chars
  }

  // ---- Numbers ----

  /** The fraction, if there is one: a point that another point does not follow. */
  function FractionLen(u: Classes, s: string): (n: nat)
    ensures n <= |s|
  {
    if HeadIn(s, ".") && !HeadIn(s[1..], ".") then 1 + DigitRun(u, s[1..]) else 0
  }

  function ExponentLen(u: Classes, s: string): (n: nat)
    ensures n <= |s|
  {
    if HeadIn(s, "eE") then
      var sign := if HeadIn(s[1..], "+-") then 1 else 0;
      1 + sign + DigitRun(u, s[1 + sign..])
    else 0
  }

  predicate IsRadix(s: string) {
    HeadIn(s, "0") && HeadIn(s[1..], "xXoObB")
  }

  function DecimalLen(u: Classes, s: string): (n: nat)
    ensures n <= |s|
  {
    var a := DigitRun(u, s);
    var b := a + FractionLen(u, s[a..]);
    b + ExponentLen(u, s[b..])
  }

  /** The number without the imaginary suffix. */
  function BodyLen(u: Classes, s: string): (n: nat)
    ensures n <= |s|
  {
    if IsRadix(s) then 2 + WordRun(u, s[2..]) else DecimalLen(u, s)
  }

  function NumberLen(u: Classes, s: string): (n: nat)
    ensures n <= |s|
  {
    var body := BodyLen(u, s);
    if HeadIn(s[body..], "jJ") then body + 1 else body
  }

  predicate StartsNumber(u: Classes, s: string) {
    s != "" && (u.digit(s[0]) || (s[0] == '.' && |s| > 1 && u.digit(s[1])))
  }

  // ---- Strings ----

  predicate StartsString(s: string) {
    HeadIn(s, QUOTES) || (HeadIn(s, PREFIXES) && HeadIn(s[PrefixRun(s)..], QUOTES))
  }

  /** How far the closing quote is from the start of the body, inclusive. */
  function CloseLen(s: string, q: char, triple: bool): (n: Option<nat>)
    ensures n.Some? ==> 0 < n.value <= |s|
    decreases |s|
  {
    if s == "" then None
    else if s[0] == '\\' then
      if |s| < 2 then None
      else match CloseLen(s[2..], q, triple) case None => None case Some(n) => Some(n + 2)
    else if !triple && s[0] == q then Some(1)
    else if triple && |s| > 2 && s[0] == q && s[1] == q && s[2] == q then Some(3)
    else match CloseLen(s[1..], q, triple) case None => None case Some(n) => Some(n + 1)
  }

  predicate IsTriple(s: string)
    requires StartsString(s)
  {
    var p := PrefixRun(s);
    |s| > p + 2 && s[p + 1] == s[p] && s[p + 2] == s[p]
  }

  /** The length of the string literal if it is closed. */
  function ClosedLen(s: string): (n: Option<nat>)
    requires StartsString(s)
    ensures n.Some? ==> PrefixRun(s) < n.value <= |s|
  {
    var p := PrefixRun(s);
    var open := if IsTriple(s) then p + 3 else p + 1;
    match CloseLen(s[open..], s[p], IsTriple(s)) case None => None case Some(n) => Some(open + n)
  }

  function StringLen(s: string): (n: nat)
    requires StartsString(s)
    ensures 0 < n <= |s|
  {
    match ClosedLen(s) case None => |s| case Some(n) => n
  }

  /** Words of the text, joined by single blanks. */
  function FirstWord(u: Classes, s: string): (n: nat)
    ensures n <= |s|
  {
    if s == "" || u.space(s[0]) then 0 else 1 + FirstWord(u, s[1..])
  }

  function Words(u: Classes, s: string): seq<string>
    decreases |s|
  {
    if s == "" then []
    else if u.space(s[0]) then Words(u, s[1..])
    else
      var n := FirstWord(u, s);
      [s[..n]] + Words(u, s[n..])
  }

  function Spaced(words: seq<string>): string {
    if words == [] then "" else if |words| == 1 then words[0] else words[0] + " " + Spaced(words[1..])
  }

  function Collapsed(u: Classes, v: string): string
    requires v != ""
  {
    var q := PrefixRun(v) + 1;
    var open := if q <= |v| then v[..q] else v;
    var inner := if q < |v| then v[q..|v| - 1] else "";
    open + Spaced(Words(u, inner)) + [v[|v| - 1]]
  }

  function StringValue(u: Classes, s: string): string
    requires StartsString(s)
  {
    var v := s[..StringLen(s)];
    if !IsTriple(s) && '\n' in v then Collapsed(u, v) else v
  }

  // ---- Punctuation ----

  const TWO_CHAR_OPS: seq<string> := [
    "==", "!=", "<=", ">=", "**", "//", "<<", ">>", "+=", "-=", "*=", "/=", "%=", "&=", "|=", "^=", ":=", "@=", "+>"]
  const THREE_CHAR_OPS: seq<string> := ["**=", "//=", ">>=", "<<=", "++>"]

  function SingleKind(c: char): TT {
    match c
    case '{' => LBrace
    case '}' => RBrace
    case '(' => LParen
    case ')' => RParen
    case '[' => LBracket
    case ']' => RBracket
    case ';' => Semi
    case ':' => Colon
    case ',' => Comma
    case '.' => Dot
    case _ => AtSign
  }

  function Take(s: string, n: nat): (r: string)
    ensures |r| <= n && r <= s
  {
    if n <= |s| then s[..n] else s
  }

  function Punct3(x: string): (k: Option<TT>)
    ensures k.Some? ==> |x| == 3
  {
    if x == "..." then Some(Ellipsis) else if x in THREE_CHAR_OPS then Some(Op) else None
  }

  function Punct2(x: string): (k: Option<TT>)
    ensures k.Some? ==> |x| == 2
  {
    if x == "->" then Some(Arrow) else if x == "?." then Some(QDot) else if x in TWO_CHAR_OPS then Some(Op) else None
  }

  function Punct1(s: string): (k: Option<TT>)
    ensures k.Some? ==> s != ""
  {
    if HeadIn(s, SINGLES) then Some(SingleKind(s[0])) else if HeadIn(s, OP_CHARS) then Some(Op) else None
  }

  /** The kind and the length of the punctuation that `s` starts with. */
  function Punct(s: string): (r: Option<(TT, nat)>)
    ensures r.Some? ==> 0 < r.value.1 <= |s|
  {
    if Punct3(Take(s, 3)).Some? then Some((Punct3(Take(s, 3)).value, 3))
    else if Punct2(Take(s, 2)).Some? then Some((Punct2(Take(s, 2)).value, 2))
    else if Punct1(s).Some? then Some((Punct1(s).value, 1))
    else None
  }

  // ---- Tokens ----

  /** The token that `s` starts with, and how many characters it takes. */
  function Read(u: Classes, s: string): (r: Option<(Token, nat)>)
    requires s != ""
    ensures r.Some? ==> r.value.1 <= |s|
  {
    if StartsString(s) then Some((Token(String, StringValue(u, s), false), StringLen(s)))
    else if StartsNumber(u, s) then Some((Token(Number, s[..NumberLen(u, s)], false), NumberLen(u, s)))
    else if s[0] == '`' then
      var n := WordRun(u, s[1..]);
      Some((Token(Name, s[1..1 + n], true), 1 + n))
    else if u.alpha(s[0]) || s[0] == '_' then
      Some((Token(Name, s[..WordRun(u, s)], false), WordRun(u, s)))
    else match Punct(s)
      case None => None
      case Some(p) => Some((Token(p.0, s[..p.1], false), p.1))
  }

  lemma ReadAdvances(u: Classes, s: string)
    requires Sane(u) && s != "" && Read(u, s).Some?
    ensures Read(u, s).value.1 > 0
  {
    if StartsNumber(u, s) {
      assert s[0] == '.' ==> !u.digit('.') && DigitRun(u, s) == 0;
      assert s[1..] != "" ==> s[1..][0] == s[1];
    }
  }

  /** The tokens of a text, or none if a character cannot be read. */
  function Lex(u: Classes, s: string): Option<seq<Token>>
    requires Sane(u)
    decreases |s|
  {
    var t := Skip(s);
    if t == "" then Some([])
    else if Read(u, t).None? then None
    else
      ReadAdvances(u, t);
      var (token, n) := Read(u, t).value;
      match Lex(u, t[n..]) case None => None case Some(rest) => Some([token] + rest)
  }
}
