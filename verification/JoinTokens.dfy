/** Printing tokens and reading them again. */
module JoinTokens {
  import opened JacTokens
  import opened Wrappers

  const NO_SPACE_BEFORE: seq<string> := [".", ")", "]", ",", ":", ";"]
  const NO_SPACE_AFTER: seq<string> := [".", "(", "[", "~"]

  /** No blank is printed between the two. */
  predicate Glued(prev: Token, cur: Token) {
    || cur.value in NO_SPACE_BEFORE
    || prev.value in NO_SPACE_AFTER
    || (prev.kind == Name && cur.value in ["(", "["])
    || (prev.kind == String && cur.value in [".", "(", "["])
    || (prev.kind == Number && cur.value == ".")
    || (prev.value in [")", "]"] && cur.value in [".", "(", "["])
    || (prev.value == ")" && cur.value == ")")
    || (prev.value == "]" && cur.value == "]")
  }

  function Join(ts: seq<Token>): string
    decreases |ts|, 1
  {
    if ts == [] then "" else ts[0].value + Tail(ts)
  }

  /** What is printed after the first token. */
  function Tail(ts: seq<Token>): string
    requires ts != []
    decreases |ts|, 0
  {
    if |ts| == 1 then "" else (if Glued(ts[0], ts[1]) then "" else " ") + Join(ts[1..])
  }

  method JoinParts(tokens: seq<Token>) returns (text: string)
    ensures text == Join(tokens)
  {
    hide Glued;
    if |tokens| == 0 {
      return "";
    }
    text := tokens[0].value;
    assert tokens[0..] == tokens;
    var i := 1;
    while i < |tokens|
      invariant 1 <= i <= |tokens| && text + Tail(tokens[i - 1..]) == Join(tokens)
    {
      var prev, cur := tokens[i - 1], tokens[i];
      TailStep(tokens, i);
      if !Glued(prev, cur) {
        text := text + " ";
      }
      text := text + cur.value;
      i := i + 1;
    }
  }

  lemma TailStep(ts: seq<Token>, i: nat)
    requires 0 < i < |ts|
    ensures Tail(ts[i - 1..]) == (if Glued(ts[i - 1], ts[i]) then "" else " ") + ts[i].value + Tail(ts[i..])
  {
    hide Glued;
    assert ts[i - 1..][1..] == ts[i..];
  }

  // ---- Tokens as the lexer makes them ----

  predicate NameOk(u: Classes, v: string) {
    v != "" && WordRun(u, v) == |v| && (u.alpha(v[0]) || v[0] == '_') && !u.digit(v[0])
  }

  predicate NumberOk(u: Classes, v: string) {
    StartsNumber(u, v) && NumberLen(u, v) == |v|
  }

  /** Closed, and on one line unless it is triple-quoted. */
  predicate StringOk(v: string) {
    StartsString(v) && ClosedLen(v) == Some(|v|) && (IsTriple(v) || '\n' !in v)
  }

  predicate TokenOk(u: Classes, t: Token) {
    match t.kind
    case Name => NameOk(u, t.value)
    case Number => NumberOk(u, t.value)
    case String => StringOk(t.value)
    case _ => t.value != "" && Punct(t.value) == Some((t.kind, |t.value|))
  }

  function Plain(t: Token): Token {
    t.(backtick := false)
  }

  function Plains(ts: seq<Token>): (r: seq<Token>)
    ensures |r| == |ts|
  {
    seq(|ts|, i requires 0 <= i < |ts| => Plain(ts[i]))
  }

  /** The first token runs into the ones printed after it without a blank. */
  predicate Clash(u: Classes, ts: seq<Token>) {
    && |ts| > 1
    && var (a, b) := (ts[0], ts[1]);
       var dotNext := |ts| > 2 && HeadIn(ts[2].value, ".");
       || (a.kind == Number && b.kind == Dot && a.value != "" &&
             (a.value[|a.value| - 1] == '.' || (DigitRun(u, a.value) == |a.value| && !dotNext)))
       || (a.value == "?" && b.kind == Dot)
       || (a.kind == Dot && b.kind == Dot && dotNext)
       || (a.kind == Dot && b.kind == Number && !HeadIn(b.value, "."))
       || (a.kind == Dot && b.kind == Ellipsis)
  }

  // ---- Punctuation and what stands after it ----

  lemma Head2(x: string)
    requires Punct2(x).Some?
    ensures |x| == 2 && x[0] in "=!<>*/+-%&|^:@?" && (x == "?." || x[1] in "=*/<>")
  {
    if x in TWO_CHAR_OPS {
      var i :| 0 <= i < |TWO_CHAR_OPS| && TWO_CHAR_OPS[i] == x;
    }
  }

  lemma Head3(x: string)
    requires Punct3(x).Some?
    ensures |x| == 3 && (x == "..." || (x[0] in "*/><+" && x[1] in "*/><+" && x[2] in "=>"))
  {
    if x in THREE_CHAR_OPS {
      var i :| 0 <= i < |THREE_CHAR_OPS| && THREE_CHAR_OPS[i] == x;
    }
  }

  lemma Head1(s: string)
    ensures Punct1(s).Some? <==> s != "" && (s[0] in SINGLES || s[0] in OP_CHARS)
    ensures forall w :: s != "" ==> Punct1(s + w) == Punct1(s)
  {
  }

  lemma PunctHead(s: string)
    requires Punct(s).Some?
    ensures s[0] in SINGLES || s[0] in OP_CHARS
  {
    hide Punct1, Punct2, Punct3;
    Head1(s);
    if Punct3(Take(s, 3)).Some? {
      Head3(Take(s, 3));
    } else if Punct2(Take(s, 2)).Some? {
      Head2(Take(s, 2));
    }
  }

  lemma HeadsApart(c: char)
    requires c in SINGLES || c in OP_CHARS
    ensures c !in PREFIXES && c !in QUOTES && c !in BLANKS && c !in OTHERS
  {
  }

  /** What may follow a piece of punctuation without being taken into it. */
  predicate Harmless(v: string, w: string) {
    w != "" ==>
      && (|v| == 2 ==> w[0] !in "=>")
      && (|v| == 1 ==>
            && (w[0] !in "=*/<>+" || v in NO_SPACE_AFTER)
            && !(v == "?" && w[0] == '.')
            && !(v == "." && HeadIn(w, ".") && HeadIn(w[1..], ".")))
  }

  lemma PunctStays(v: string, w: string)
    requires v != "" && Punct(v).Some? && Punct(v).value.1 == |v| && Harmless(v, w)
    ensures Punct(v + w) == Punct(v)
  {
    if w == "" {
      assert v + w == v;
    } else if |v| == 1 {
      OneStays(v, w);
    } else if |v| == 2 {
      TwoStays(v, w);
    } else {
      hide Punct1, Punct2, Punct3;
      assert Take(v + w, 3) == v && Take(v, 3) == v;
    }
  }

  lemma TwoStays(v: string, w: string)
    requires |v| == 2 && Punct(v).Some? && Punct(v).value.1 == 2 && w != "" && Harmless(v, w)
    ensures Punct(v + w) == Punct(v)
  {
    hide Punct1, Punct2, Punct3;
    assert Take(v + w, 2) == v && Take(v, 2) == v && Take(v, 3) == v;
    var three := Take(v + w, 3);
    assert three == [v[0], v[1], w[0]];
    if Punct3(three).Some? {
      Head3(three);
      assert v == "..";
      Head2(v);
    }
  }

  lemma OneStays(v: string, w: string)
    requires |v| == 1 && Punct(v).Some? && w != "" && Harmless(v, w)
    ensures Punct(v + w) == Punct(v)
  {
    hide Punct1, Punct2, Punct3;
    Head1(v);
    assert Take(v, 3) == v && Take(v, 2) == v;
    var three, two := Take(v + w, 3), Take(v + w, 2);
    assert two == [v[0], w[0]];
    assert |three| == 3 ==> three == [v[0], w[0], w[1]] && w[1..][0] == w[1];
    SpaceAfterHeads(v);
    if Punct2(two).Some? {
      Head2(two);
    }
    if Punct3(three).Some? {
      Head3(three);
    }
  }

  lemma SpaceAfterHeads(v: string)
    ensures v in NO_SPACE_AFTER ==> |v| == 1 && v[0] in ".([~" && v[0] !in "=!<>*/+-%&|^:@?"
    ensures |v| == 1 && v[0] == '?' ==> v == "?"
    ensures |v| == 1 && v[0] == '.' ==> v == "."
  {
  }

  // ---- Each kind of token is read back ----

  /** What can stand right after a name, a number or a string. */
  const CLOSERS: string := " .)],:;(["

  lemma CloserChars(c: char)
    requires c in CLOSERS
    ensures (c in SINGLES || c in BLANKS) && c != '_' && c !in QUOTES && c !in PREFIXES && c !in "eEjJxXoObB+-0"
  {
  }

  lemma ClosersApart(u: Classes, c: char)
    requires Sane(u) && c in CLOSERS
    ensures !IsWord(u, c) && !IsDigit(u, c) && !u.alpha(c) && !u.digit(c)
    ensures c !in QUOTES && c !in PREFIXES && c !in "eEjJxXoObB+-0"
  {
    CloserChars(c);
    hide SINGLES, BLANKS, CLOSERS, QUOTES, PREFIXES;
  }

  lemma {:induction false} WordRunStays(u: Classes, v: string, w: string)
    requires WordRun(u, v) == |v| && (w == "" || !IsWord(u, w[0]))
    ensures WordRun(u, v + w) == |v|
    ensures forall c :: c in v ==> IsWord(u, c)
  {
    if v == "" {
      assert v + w == w;
    } else {
      WordRunStays(u, v[1..], w);
      assert (v + w)[1..] == v[1..] + w;
    }
  }

  lemma {:induction false} NoQuoteAhead(v: string, w: string)
    requires (forall c :: c in v ==> c !in QUOTES) && (w == "" || (w[0] !in QUOTES && w[0] !in PREFIXES))
    ensures !HeadIn((v + w)[PrefixRun(v + w)..], QUOTES)
  {
    if v == "" {
      assert v + w == w;
    } else if v[0] in PREFIXES {
      NoQuoteAhead(v[1..], w);
      assert (v + w)[1..] == v[1..] + w;
      assert (v + w)[PrefixRun(v + w)..] == (v[1..] + w)[PrefixRun(v[1..] + w)..];
    } else {
      assert PrefixRun(v + w) == 0;
    }
  }

  lemma ReadName(u: Classes, v: string, w: string)
    requires Sane(u) && NameOk(u, v) && (w == "" || w[0] in CLOSERS)
    ensures Read(u, v + w) == Some((Token(Name, v, false), |v|))
  {
    if w != "" {
      ClosersApart(u, w[0]);
    }
    WordRunStays(u, v, w);
    NoQuoteAhead(v, w);
    assert (v + w)[0] == v[0] && v[0] in v;
    assert (v + w)[..|v|] == v;
    hide WordRun, PrefixRun, Punct;
  }

  lemma {:induction false} DigitRunStays(u: Classes, v: string, w: string)
    requires w == "" || !IsDigit(u, w[0])
    ensures DigitRun(u, v + w) == DigitRun(u, v)
  {
    if v == "" {
      assert v + w == w;
    } else if IsDigit(u, v[0]) {
      DigitRunStays(u, v[1..], w);
      assert (v + w)[1..] == v[1..] + w;
    }
  }

  lemma {:induction false} WordsStay(u: Classes, v: string, w: string)
    requires w == "" || !IsWord(u, w[0])
    ensures WordRun(u, v + w) == WordRun(u, v)
  {
    if v == "" {
      assert v + w == w;
    } else if IsWord(u, v[0]) {
      WordsStay(u, v[1..], w);
      assert (v + w)[1..] == v[1..] + w;
    }
  }

  /** What stands after a number neither continues it nor carries a sign. */
  predicate Ends(u: Classes, w: string) {
    w != "" ==> !IsWord(u, w[0]) && !IsDigit(u, w[0]) && w[0] !in "eEjJxXoObB+-0"
  }

  lemma HeadStays(x: string, w: string, chars: string)
    ensures x != "" ==> (HeadIn(x + w, chars) <==> HeadIn(x, chars)) && (x + w)[1..] == x[1..] + w
    ensures x == "" ==> x + w == w
  {
  }

  lemma NotOf(u: Classes, w: string)
    requires Ends(u, w)
    ensures !HeadIn(w, "eE") && !HeadIn(w, "jJ") && !HeadIn(w, "xXoObB") && !HeadIn(w, "+-") && !HeadIn(w, "0")
    ensures DigitRun(u, w) == 0
  {
  }

  lemma FractionStays(u: Classes, x: string, w: string)
    requires Ends(u, w)
    ensures |x| > 1 || (|x| == 1 && !(x == "." && HeadIn(w, "."))) ==> FractionLen(u, x + w) == FractionLen(u, x)
    ensures x == "." && HeadIn(w, ".") ==> FractionLen(u, x + w) == 0
    ensures x == "" && !(HeadIn(w, ".") && !HeadIn(w[1..], ".")) ==> FractionLen(u, x + w) == 0
    ensures x == "" && HeadIn(w, ".") && !HeadIn(w[1..], ".") ==> FractionLen(u, x + w) > 0
  {
    hide DigitRun;
    NotOf(u, w);
    HeadStays(x, w, ".");
    if x != "" {
      HeadStays(x[1..], w, ".");
      DigitRunStays(u, x[1..], w);
    }
  }

  lemma ExponentStays(u: Classes, y: string, w: string)
    requires Ends(u, w)
    ensures ExponentLen(u, y + w) == ExponentLen(u, y)
  {
    hide DigitRun;
    NotOf(u, w);
    HeadStays(y, w, "eE");
    if y != "" {
      HeadStays(y[1..], w, "+-");
      var sign := if HeadIn(y[1..], "+-") then 1 else 0;
      assert (y + w)[1 + sign..] == y[1 + sign..] + w;
      DigitRunStays(u, y[1 + sign..], w);
    }
  }

  /** The number runs on, or is cut short, exactly if a point follows that its last
      characters make into a fraction or stop from being one. */
  predicate PointClash(u: Classes, v: string, w: string)
    requires v != ""
  {
    HeadIn(w, ".") && (v[|v| - 1] == '.' || (DigitRun(u, v) == |v| && !HeadIn(w[1..], ".")))
  }

  lemma RadixStays(u: Classes, v: string, w: string)
    requires v != "" && Ends(u, w)
    ensures IsRadix(v + w) <==> IsRadix(v)
    ensures IsRadix(v) ==> WordRun(u, (v + w)[2..]) == WordRun(u, v[2..])
  {
    hide WordRun;
    NotOf(u, w);
    HeadStays(v, w, "0");
    HeadStays(v[1..], w, "xXoObB");
    if HeadIn(v[1..], "xXoObB") {
      assert (v + w)[2..] == v[2..] + w;
      WordsStay(u, v[2..], w);
    }
  }

  lemma DecimalStays(u: Classes, v: string, w: string)
    requires v != "" && Ends(u, w) && !PointClash(u, v, w)
    ensures DecimalLen(u, v + w) == DecimalLen(u, v)
  {
    hide DigitRun, FractionLen, ExponentLen;
    DigitRunStays(u, v, w);
    var a := DigitRun(u, v);
    var x := v[a..];
    assert (v + w)[a..] == x + w;
    assert x == "." ==> v[|v| - 1] == '.';
    FractionStays(u, x, w);
    NoFraction(u);
    var b := a + FractionLen(u, x);
    assert FractionLen(u, x + w) == FractionLen(u, x);
    assert (v + w)[b..] == v[b..] + w;
    ExponentStays(u, v[b..], w);
  }

  lemma NoFraction(u: Classes)
    ensures FractionLen(u, "") == 0
  {
  }

  lemma NumberStays(u: Classes, v: string, w: string)
    requires v != "" && Ends(u, w) && NumberLen(u, v) == |v| && !PointClash(u, v, w)
    ensures NumberLen(u, v + w) == |v|
  {
    RadixStays(u, v, w);
    DecimalStays(u, v, w);
    hide WordRun, DecimalLen, IsRadix, PointClash;
    NotOf(u, w);
    var body := BodyLen(u, v);
    assert (v + w)[body..] == v[body..] + w;
    HeadStays(v[body..], w, "jJ");
  }

  lemma {:induction false} DigitLast(u: Classes, s: string)
    requires s != "" && DigitRun(u, s) == |s|
    ensures IsDigit(u, s[|s| - 1])
  {
    if |s| > 1 {
      DigitLast(u, s[1..]);
    }
  }

  lemma {:induction false} WordLast(u: Classes, s: string)
    requires s != "" && WordRun(u, s) == |s|
    ensures IsWord(u, s[|s| - 1])
  {
    if |s| > 1 {
      WordLast(u, s[1..]);
    }
  }

  lemma FractionLast(u: Classes, x: string)
    requires x != "" && FractionLen(u, x) == |x| && x[|x| - 1] == '.' && !IsDigit(u, '.')
    ensures x == "."
  {
    if |x| > 1 {
      DigitLast(u, x[1..]);
    }
  }

  lemma ExponentLast(u: Classes, y: string)
    requires ExponentLen(u, y) == |y| && !IsDigit(u, '.')
    ensures y != "" ==> y[|y| - 1] != '.'
  {
    if y != "" {
      var sign := if HeadIn(y[1..], "+-") then 1 else 0;
      if |y| > 1 + sign {
        DigitLast(u, y[1 + sign..]);
      }
    }
  }

  /** A number that ends in a point is digits and the point. */
  lemma PointLast(u: Classes, v: string)
    requires v != "" && NumberLen(u, v) == |v| && v[|v| - 1] == '.' && !IsWord(u, '.') && !IsDigit(u, '.')
    ensures !IsRadix(v) && DigitRun(u, v) == |v| - 1
  {
    hide WordRun, DigitRun, FractionLen, ExponentLen;
    var body := BodyLen(u, v);
    assert v[|v| - 1..][0] == '.';
    assert |v| > 1 ==> v[1..][0] == v[1];
    if IsRadix(v) {
      if |v| > 2 {
        WordLast(u, v[2..]);
      }
    } else {
      var a := DigitRun(u, v);
      var b := a + FractionLen(u, v[a..]);
      ExponentLast(u, v[b..]);
      assert b == |v|;
      if a == |v| {
        DigitLast(u, v);
      } else {
        FractionLast(u, v[a..]);
      }
    }
  }

  /** Where a point clashes, another length is read. */
  lemma NumberClashes(u: Classes, v: string, w: string)
    requires Sane(u) && v != "" && Ends(u, w) && NumberLen(u, v) == |v| && PointClash(u, v, w)
    ensures NumberLen(u, v + w) != |v|
  {
    RadixStays(u, v, w);
    DigitRunStays(u, v, w);
    var a := DigitRun(u, v);
    assert (v + w)[a..] == v[a..] + w;
    FractionStays(u, v[a..], w);
    if v[|v| - 1] == '.' {
      PointLast(u, v);
      assert v[a..] == ".";
      NotExponent(u, v[a..] + w);
      hide WordRun, DigitRun, FractionLen, ExponentLen;
    } else {
      DigitsNotRadix(u, v);
      hide WordRun, DigitRun, FractionLen, ExponentLen;
    }
  }

  lemma NotExponent(u: Classes, s: string)
    requires HeadIn(s, ".")
    ensures ExponentLen(u, s) == 0 && !HeadIn(s, "jJ")
  {
  }

  lemma DigitsNotRadix(u: Classes, v: string)
    requires Sane(u) && DigitRun(u, v) == |v|
    ensures !IsRadix(v)
  {
    assert |v| > 1 ==> v[1..][0] == v[1];
    assert v != "" ==> DigitRun(u, v[1..]) == |v| - 1;
    if IsRadix(v) {
      RadixMarks(v[1]);
    }
  }

  lemma RadixMarks(c: char)
    requires c in "xXoObB"
    ensures (c in MARKERS || c in PREFIXES) && c != '_'
  {
  }

  lemma {:induction false} CloseStays(a: string, q: char, triple: bool, w: string)
    requires CloseLen(a, q, triple).Some?
    ensures CloseLen(a + w, q, triple) == CloseLen(a, q, triple)
    decreases |a|
  {
    var s := a + w;
    assert s[0] == a[0];
    if a[0] == '\\' {
      CloseStays(a[2..], q, triple, w);
      assert s[2..] == a[2..] + w;
    } else if (!triple && a[0] == q) || (triple && |a| > 2 && a[0] == q && a[1] == q && a[2] == q) {
    } else {
      CloseStays(a[1..], q, triple, w);
      assert s[1..] == a[1..] + w;
      CloseNeeds(a[1..], q, triple);
      assert |a| > 2 && triple ==> s[1] == a[1] && s[2] == a[2];
    }
  }

  lemma {:induction false} CloseNeeds(a: string, q: char, triple: bool)
    requires CloseLen(a, q, triple).Some?
    ensures triple ==> |a| >= 3
    decreases |a|
  {
    if a[0] == '\\' {
      CloseNeeds(a[2..], q, triple);
    } else if (!triple && a[0] == q) || (triple && |a| > 2 && a[0] == q && a[1] == q && a[2] == q) {
    } else {
      CloseNeeds(a[1..], q, triple);
    }
  }

  lemma {:induction false} PrefixRunStays(v: string, w: string)
    requires PrefixRun(v) < |v|
    ensures PrefixRun(v + w) == PrefixRun(v)
  {
    if v[0] in PREFIXES {
      PrefixRunStays(v[1..], w);
      assert (v + w)[1..] == v[1..] + w;
    }
  }

  lemma ReadString(u: Classes, v: string, w: string)
    requires StringOk(v) && (w == "" || w[0] !in QUOTES)
    ensures Read(u, v + w) == Some((Token(String, v, false), |v|))
  {
    hide CloseLen, PrefixRun, Collapsed;
    QuoteInside(v);
    PrefixRunStays(v, w);
    var s, p := v + w, PrefixRun(v);
    assert s[p] == v[p] && s[0] == v[0];
    assert StartsString(s);
    assert v[p] in QUOTES;
    assert IsTriple(s) <==> IsTriple(v);
    var open := if IsTriple(v) then p + 3 else p + 1;
    assert s[open..] == v[open..] + w;
    CloseStays(v[open..], v[p], IsTriple(v), w);
    assert s[..|v|] == v;
  }

  lemma QuoteInside(v: string)
    requires StartsString(v)
    ensures PrefixRun(v) < |v| && v[PrefixRun(v)] in QUOTES
  {
    hide QUOTES, PREFIXES, PrefixRun;
    NoPrefix(v);
    if v[0] in QUOTES {
      QuotesApart(v[0]);
    } else {
      assert v[PrefixRun(v)..][0] == v[PrefixRun(v)];
    }
  }

  lemma NoPrefix(v: string)
    requires v != ""
    ensures v[0] !in PREFIXES ==> PrefixRun(v) == 0
  {
    hide PREFIXES;
  }

  lemma QuotesApart(c: char)
    requires c in QUOTES
    ensures c !in PREFIXES
  {
  }
}
