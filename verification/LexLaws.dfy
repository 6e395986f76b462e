/** What the lexer and the printer do, said with the characters themselves. */
module LexLaws {
  import opened JacTokens
  import opened JoinTokens
  import opened LexedTokens
  import opened Relex
  import opened Wrappers

  // ---- The kinds of tokens ----

  predicate IsOperator(v: string) {
    || (|v| == 1 && v[0] in "=+-*/%&|^~<>!?")
    || v in ["==", "!=", "<=", ">=", "**", "//", "<<", ">>", "+=", "-=", "*=", "/=", "%=", "&=", "|=", "^=", ":=", "@=", "+>"]
    || v in ["**=", "//=", ">>=", "<<=", "++>"]
  }

  /** Kind and text of a token that is neither a name nor a number nor a string
      determine each other. */
  predicate RightKind(t: Token) {
    && (t.kind == LBrace <==> t.value == "{") && (t.kind == RBrace <==> t.value == "}")
    && (t.kind == LParen <==> t.value == "(") && (t.kind == RParen <==> t.value == ")")
    && (t.kind == LBracket <==> t.value == "[") && (t.kind == RBracket <==> t.value == "]")
    && (t.kind == Semi <==> t.value == ";") && (t.kind == Colon <==> t.value == ":") && (t.kind == Comma <==> t.value == ",")
    && (t.kind == Dot <==> t.value == ".") && (t.kind == AtSign <==> t.value == "@")
    && (t.kind == QDot <==> t.value == "?.") && (t.kind == Arrow <==> t.value == "->")
    && (t.kind == Ellipsis <==> t.value == "...") && (t.kind == Op <==> IsOperator(t.value))
  }

  lemma OneCharKind(v: string, b: bool)
    requires |v| == 1 && Punct1(v).Some?
    ensures RightKind(Token(Punct1(v).value, v, b))
  {
    var c := v[0];
    assert v == [c];
    LongerTexts(v);
    SingleText(c);
    hide IsOperator, RightKind, SINGLES, OP_CHARS;
    if c in SINGLES {
      SingleKindIs(v, b);
    } else {
      OperatorKind(v, b);
    }
  }

  lemma SingleKindIs(v: string, b: bool)
    requires |v| == 1 && v[0] in SINGLES && !IsOperator(v) && v != "?." && v != "->" && v != "..."
    ensures RightKind(Token(SingleKind(v[0]), v, b))
  {
    hide IsOperator;
  }

  lemma OperatorKind(v: string, b: bool)
    requires |v| == 1 && v[0] !in SINGLES && IsOperator(v) && v != "?." && v != "->" && v != "..."
    ensures RightKind(Token(Op, v, b))
  {
    hide IsOperator;
  }

  lemma LongerTexts(v: string)
    requires |v| == 1
    ensures v != "?." && v != "->" && v != "..."
    ensures IsOperator(v) <==> v[0] in "=+-*/%&|^~<>!?"
  {
  }

  lemma SingleText(c: char)
    ensures c in SINGLES ==> c !in "=+-*/%&|^~<>!?"
    ensures HeadIn([c], SINGLES) <==> c in "{}()[];:,.@"
    ensures HeadIn([c], OP_CHARS) <==> c in "=+-*/%&|^~<>!?"
  {
  }

  lemma TwoCharKind(v: string, b: bool)
    requires |v| == 2 && Punct2(v).Some?
    ensures RightKind(Token(Punct2(v).value, v, b))
  {
  }

  lemma ThreeCharKind(v: string, b: bool)
    requires |v| == 3 && Punct3(v).Some?
    ensures RightKind(Token(Punct3(v).value, v, b))
  {
  }

  lemma PunctKind(v: string, b: bool)
    requires Punct(v).Some? && Punct(v).value.1 == |v|
    ensures RightKind(Token(Punct(v).value.0, v, b))
  {
    assert Take(v, 3) == v && (|v| <= 2 ==> Take(v, 2) == v);
    hide RightKind, Punct1, Punct2, Punct3;
    if Punct3(Take(v, 3)).Some? {
      ThreeCharKind(v, b);
    } else if Punct2(Take(v, 2)).Some? {
      TwoCharKind(v, b);
    } else {
      OneCharKind(v, b);
    }
  }

  predicate IsMark(v: string) {
    || v in ["{", "}", "(", ")", "[", "]", ";", ":", ",", ".", "@", "?.", "->", "..."]
    || IsOperator(v)
  }

  lemma MarkHead(v: string)
    requires IsMark(v)
    ensures v != "" && (v[0] in SINGLES || v[0] in OP_CHARS)
    ensures v[0] == '.' && |v| > 1 ==> v[1] == '.'
  {
  }

  lemma NotMark(t: Token)
    requires t.kind == Name || t.kind == Number || t.kind == String
    requires !IsMark(t.value)
    ensures RightKind(t)
  {
  }

  lemma NameNotMark(u: Classes, v: string)
    requires Sane(u) && (v != "" ==> IsWord(u, v[0]))
    ensures !IsMark(v)
  {
    hide IsMark;
    if IsMark(v) {
      MarkHead(v);
    }
    assert '_' !in SINGLES && '_' !in OP_CHARS;
  }

  lemma NumberNotMark(u: Classes, s: string)
    requires Sane(u) && StartsNumber(u, s)
    ensures !IsMark(s[..NumberLen(u, s)])
  {
    var v := s[..NumberLen(u, s)];
    ReadAdvancesNumber(u, s);
    NumberHeadKept(u, s);
    hide IsMark, NumberLen;
    assert u.digit(v[0]) ==> u.alnum(v[0]);
    if IsMark(v) {
      MarkHead(v);
    }
  }

  /** A number that starts with a point has a digit next. */
  lemma NumberHeadKept(u: Classes, s: string)
    requires Sane(u) && StartsNumber(u, s)
    ensures var v := s[..NumberLen(u, s)];
            v != "" && (u.digit(v[0]) || (v[0] == '.' && |v| > 1 && v[1] != '.'))
  {
    NumberCut(u, s);
    hide NumberLen;
    assert !u.digit('.') by { assert '.' in SINGLES; }
  }

  lemma StringNotMark(u: Classes, v: string)
    requires StartsString(v)
    ensures !IsMark(v)
  {
    hide IsMark, PrefixRun;
    if IsMark(v) {
      MarkHead(v);
    }
    assert forall c :: c in QUOTES || c in PREFIXES ==> c !in SINGLES && c !in OP_CHARS;
  }

  lemma WordHead(u: Classes, s: string)
    ensures var v := s[..WordRun(u, s)]; v != "" ==> IsWord(u, v[0])
  {
  }

  lemma ReadKind(u: Classes, s: string)
    requires Sane(u) && s != "" && Read(u, s).Some?
    ensures RightKind(Read(u, s).value.0)
  {
    hide RightKind, IsMark, NumberLen, Punct, StringLen, StringValue, StartsString, WordRun, StartsNumber, Sane;
    var t := Read(u, s).value.0;
    if StartsString(s) {
      ValueStarts(u, s);
      StringNotMark(u, t.value);
      NotMark(t);
    } else if StartsNumber(u, s) {
      NumberNotMark(u, s);
      NotMark(t);
    } else if s[0] == '`' {
      WordHead(u, s[1..]);
      assert s[1..][..WordRun(u, s[1..])] == t.value;
      NameNotMark(u, t.value);
      NotMark(t);
    } else if u.alpha(s[0]) || s[0] == '_' {
      WordHead(u, s);
      NameNotMark(u, t.value);
      NotMark(t);
    } else {
      PunctCut(s);
      PunctKind(t.value, false);
    }
  }

  /** Every token of every text has the kind that its text says. */
  lemma KindsAreRight(u: Classes, s: string)
    requires Sane(u)
    ensures Lex(u, s).Some? ==> forall t :: t in Lex(u, s).value ==> RightKind(t)
  {
    LexProduces(u, s);
    hide Lex, Read, RightKind;
    if Lex(u, s).Some? {
      forall t | t in Lex(u, s).value ensures RightKind(t) {
        assert Produced(u, t);
        var x: string :| x != "" && Read(u, x).Some? && Read(u, x).value.0 == t;
        ReadKind(u, x);
      }
    }
  }

  // ---- The longest text ----

  lemma MarkLengths(x: string)
    requires IsMark(x)
    ensures |x| == 1 || |x| == 2 || |x| == 3
    ensures |x| == 1 ==> Punct1(x).Some?
    ensures |x| == 2 ==> Punct2(x).Some?
    ensures |x| == 3 ==> Punct3(x).Some?
  {
  }

  lemma MarkIsPunct(s: string, x: string)
    requires IsMark(x) && x <= s
    ensures Punct(s).Some? && Punct(s).value.1 >= |x|
  {
    MarkLengths(x);
    assert Take(s, |x|) == x;
    hide IsMark, Punct2, Punct3;
    if |x| == 1 {
      assert s[0] == x[0];
    }
  }

  lemma KindIsMark(t: Token)
    requires RightKind(t) && t.kind !in {Name, Number, String}
    ensures IsMark(t.value)
  {
    hide IsOperator;
  }

  /** Where a mark stands, no number starting there, the token is at least as long:
      the longest mark is taken. */
  lemma LongestMark(u: Classes, s: string, x: string)
    requires Sane(u) && IsMark(x) && x <= s && s != "" && !(s[0] == '.' && |s| > 1 && u.digit(s[1]))
    ensures Read(u, s).Some?
    ensures var (t, n) := Read(u, s).value;
            n >= |x| && t.value == s[..n] && IsMark(t.value) && RightKind(t) && !t.backtick
  {
    MarkHead(x);
    assert s[0] == x[0];
    MarkApart(u, s[0]);
    MarkIsPunct(s, x);
    NotStarted(u, s);
    hide IsMark, Punct, StartsString, StartsNumber, Sane, MarkHeads, RightKind;
    PunctCut(s);
    ReadKind(u, s);
    PunctKinds(s);
    KindIsMark(Read(u, s).value.0);
  }

  predicate MarkHeads(c: char) {
    c in SINGLES || c in OP_CHARS
  }

  lemma MarkApart(u: Classes, c: char)
    requires Sane(u) && MarkHeads(c)
    ensures !u.alnum(c) && !u.alpha(c) && !u.digit(c) && c != '`' && c != '_' && c !in QUOTES && c !in PREFIXES
  {
    MarkChars(c);
    hide SINGLES, OP_CHARS, QUOTES, PREFIXES;
    assert u.digit(c) || u.alpha(c) ==> u.alnum(c);
  }

  lemma MarkChars(c: char)
    requires MarkHeads(c)
    ensures c != '`' && c != '_' && c !in QUOTES && c !in PREFIXES
  {
  }

  lemma NotStarted(u: Classes, s: string)
    requires s != "" && s[0] !in QUOTES && s[0] !in PREFIXES && !u.digit(s[0]) && !(s[0] == '.' && |s| > 1 && u.digit(s[1]))
    ensures !StartsString(s) && !StartsNumber(u, s)
  {
  }

  // ---- Blanks and comments ----

  lemma LexAfter(u: Classes, s: string, t: string)
    requires Sane(u) && Skip(s) == Skip(t)
    ensures Lex(u, s) == Lex(u, t)
  {
    hide Sane, Read, Skip;
  }

  /** A blank, a tab, a line break or a carriage return is skipped. */
  lemma BlankSkipped(u: Classes, c: char, s: string)
    requires Sane(u) && (c == ' ' || c == '\t' || c == '\r' || c == '\n')
    ensures Lex(u, [c] + s) == Lex(u, s)
  {
    assert ([c] + s)[1..] == s;
    LexAfter(u, [c] + s, s);
  }

  lemma {:induction false} AfterLineIs(c: string, s: string)
    requires '\n' !in c
    ensures AfterLine(c + "\n" + s) == "\n" + s
  {
    if c == "" {
      assert c + "\n" + s == "\n" + s;
    } else {
      assert (c + "\n" + s)[1..] == c[1..] + "\n" + s;
      AfterLineIs(c[1..], s);
    }
  }

  /** A comment from `#` runs to the end of its line. */
  lemma LineCommentSkipped(u: Classes, c: string, s: string)
    requires Sane(u) && '\n' !in c && (c == "" || c[0] != '*')
    ensures Lex(u, "#" + c + "\n" + s) == Lex(u, s)
  {
    var t := "#" + c + "\n" + s;
    assert t[1..] == c + "\n" + s;
    AfterLineIs("#" + c, s);
    assert t[0] == '#' && t[1] != '*';
    assert Skip(t) == Skip("\n" + s);
    LexAfter(u, t, "\n" + s);
    BlankSkipped(u, '\n', s);
  }

  lemma {:induction false} AfterBlockIs(c: string, s: string)
    requires forall i :: 0 <= i < |c| ==> !(c[i] == '*' && (c + "*#")[i + 1] == '#')
    ensures AfterBlock(c + "*#" + s) == s
  {
    var t := c + "*#" + s;
    if c == "" {
      assert t == "*#" + s && t[2..] == s;
    } else {
      assert t[0] == c[0] && t[1] == (c + "*#")[1];
      assert t[1..] == c[1..] + "*#" + s;
      forall i | 0 <= i < |c[1..]| ensures !(c[1..][i] == '*' && (c[1..] + "*#")[i + 1] == '#') {
        assert (c[1..] + "*#")[i + 1] == (c + "*#")[i + 2];
      }
      AfterBlockIs(c[1..], s);
    }
  }

  /** A comment from `#*` runs to the next `*#`. */
  lemma BlockCommentSkipped(u: Classes, c: string, s: string)
    requires Sane(u) && forall i :: 0 <= i < |c| ==> !(c[i] == '*' && (c + "*#")[i + 1] == '#')
    ensures Lex(u, "#*" + c + "*#" + s) == Lex(u, s)
  {
    var t := "#*" + c + "*#" + s;
    assert t[2..] == c + "*#" + s && t[0] == '#' && t[1] == '*';
    AfterBlockIs(c, s);
    assert Skip(t) == Skip(s);
    LexAfter(u, t, s);
  }

  lemma {:induction false} NoBlockEnd(c: string)
    requires forall i :: 0 <= i < |c| - 1 ==> !(c[i] == '*' && c[i + 1] == '#')
    ensures AfterBlock(c) == ""
  {
    if c != "" {
      NoBlockEnd(c[1..]);
    }
  }

  /** An unclosed one runs to the end of the text. */
  lemma OpenCommentSkipped(u: Classes, c: string)
    requires Sane(u) && forall i :: 0 <= i < |c| - 1 ==> !(c[i] == '*' && c[i + 1] == '#')
    ensures Lex(u, "#*" + c) == Some([])
  {
    var t := "#*" + c;
    assert t[2..] == c && t[0] == '#' && t[1] == '*';
    NoBlockEnd(c);
    assert Skip(t) == Skip("") == "";
  }

  // ---- Names ----

  /** The text gives the token and then the tokens of what is left. */
  ghost predicate Gives(u: Classes, s: string, t: Token, w: string)
    requires Sane(u)
  {
    match Lex(u, w)
    case None => Lex(u, s) == None
    case Some(rest) => Lex(u, s) == Some([t] + rest)
  }

  lemma GivesOne(u: Classes, v: string, w: string, t: Token)
    requires Sane(u) && v != "" && v[0] !in " \t\r\n#" && Read(u, v + w) == Some((t, |v|))
    ensures Gives(u, v + w, t, w)
  {
    var s := v + w;
    assert s[0] == v[0] && s[|v|..] == w;
    NotSkipped(s);
    LexOne(u, s, t, |v|);
    hide Lex, Read, Sane, Skip;
  }

  lemma NotSkipped(s: string)
    requires s != "" && s[0] !in " \t\r\n#"
    ensures Skip(s) == s
  {
  }

  /** Letters, digits and underscores. */
  predicate AllWord(u: Classes, v: string) {
    forall i :: 0 <= i < |v| ==> u.alnum(v[i]) || v[i] == '_'
  }

  /** Nothing that continues a word stands there. */
  predicate WordEnds(u: Classes, w: string) {
    w == "" || !(u.alnum(w[0]) || w[0] == '_')
  }

  lemma {:induction false} WholeWord(u: Classes, v: string, w: string)
    requires AllWord(u, v) && WordEnds(u, w)
    ensures WordRun(u, v + w) == |v|
  {
    if v == "" {
      assert v + w == w;
    } else {
      WholeWord(u, v[1..], w);
      assert (v + w)[1..] == v[1..] + w;
    }
  }

  /** A run of word characters that starts with a letter or an underscore is a name,
      unless a quote makes it the prefix of a string. */
  lemma NameIsRead(u: Classes, v: string, w: string)
    requires Sane(u) && v != "" && AllWord(u, v) && (u.alpha(v[0]) || v[0] == '_') && !u.digit(v[0])
    requires WordEnds(u, w) && (w == "" || w[0] !in "\"'fFrRbBuU")
    ensures Gives(u, v + w, Token(Name, v, false), w)
  {
    WholeWord(u, v, w);
    WordChars(u, v);
    NoQuoteAhead(v, w);
    WordFirst(u, v[0]);
    var s := v + w;
    assert s[0] == v[0] && s[..|v|] == v;
    assert s[0] != '.' && !u.digit(s[0]);
    hide WordRun, PrefixRun, Punct, Sane;
    GivesOne(u, v, w, Token(Name, v, false));
  }

  lemma WordChars(u: Classes, v: string)
    requires Sane(u) && AllWord(u, v)
    ensures forall c :: c in v ==> c !in QUOTES
  {
  }

  lemma WordFirst(u: Classes, c: char)
    requires Sane(u) && (u.alnum(c) || u.alpha(c) || c == '_')
    ensures c !in " \t\r\n#" && c != '.' && c != '`' && c !in QUOTES
  {
  }

  /** A backtick and a word, which may be empty, give a marked name without it. */
  lemma BacktickIsRead(u: Classes, v: string, w: string)
    requires Sane(u) && AllWord(u, v) && WordEnds(u, w)
    ensures Gives(u, "`" + v + w, Token(Name, v, true), w)
  {
    WholeWord(u, v, w);
    ReadBacktick(u, v, w);
    hide *;
    GivesOne(u, "`" + v, w, Token(Name, v, true));
  }

  lemma ReadBacktick(u: Classes, v: string, w: string)
    requires Sane(u) && WordRun(u, v + w) == |v|
    ensures Read(u, "`" + v + w) == Some((Token(Name, v, true), 1 + |v|))
  {
    var s := "`" + v + w;
    assert s[1..] == v + w && s[1..1 + |v|] == v && s[0] == '`';
    BacktickApart(u, s);
    hide WordRun, Punct, Sane, StartsString, StartsNumber;
  }

  lemma BacktickApart(u: Classes, s: string)
    requires Sane(u) && s != "" && s[0] == '`'
    ensures !StartsString(s) && !StartsNumber(u, s)
  {
    assert '`' in OTHERS && '`' !in QUOTES && '`' !in PREFIXES;
    assert u.digit('`') ==> u.alnum('`');
  }

  // ---- Strings ----

  predicate IsPrefix(p: string) {
    forall i :: 0 <= i < |p| ==> p[i] in "fFrRbBuU"
  }

  /** What may stand between single quotes: no quote and no line break, save that a
      backslash takes the next character with it. */
  predicate InsideQuotes(c: string, q: char)
    decreases |c|
  {
    if c == "" then true
    else if c[0] == '\\' then |c| > 1 && c[1] != '\n' && InsideQuotes(c[2..], q)
    else c[0] != q && c[0] != '\n' && InsideQuotes(c[1..], q)
  }

  lemma {:induction false} ClosesThere(c: string, q: char)
    requires InsideQuotes(c, q) && q in "\"'"
    ensures CloseLen(c + [q], q, false) == Some(|c| + 1) && '\n' !in c
    decreases |c|
  {
    var s := c + [q];
    if c == "" {
      assert s == [q];
    } else if c[0] == '\\' {
      assert s[2..] == c[2..] + [q] && s[0] == c[0];
      ClosesThere(c[2..], q);
      assert c == [c[0], c[1]] + c[2..];
    } else {
      assert s[1..] == c[1..] + [q] && s[0] == c[0];
      ClosesThere(c[1..], q);
      assert c == [c[0]] + c[1..];
    }
  }

  lemma {:induction false} PrefixIs(p: string, s: string)
    requires IsPrefix(p) && s != "" && s[0] !in PREFIXES
    ensures PrefixRun(p + s) == |p|
  {
    if p == "" {
      assert p + s == s;
    } else {
      PrefixIs(p[1..], s);
      assert (p + s)[1..] == p[1..] + s;
    }
  }

  lemma StartsThere(p: string, q: char, s: string)
    requires IsPrefix(p) && q in "\"'"
    ensures PrefixRun(p + [q] + s) == |p| && StartsString(p + [q] + s) && (p + [q] + s)[|p|] == q
  {
    assert q !in PREFIXES;
    assert p + [q] + s == p + ([q] + s);
    PrefixIs(p, [q] + s);
    var t := p + [q] + s;
    assert t[|p|..] == [q] + s;
    assert p != "" ==> t[0] == p[0] && p[0] in PREFIXES;
  }

  lemma ShortString(p: string, q: char, c: string)
    requires IsPrefix(p) && q in "\"'" && c != "" && InsideQuotes(c, q)
    ensures StringOk(p + [q] + c + [q])
  {
    var v := p + [q] + c + [q];
    assert v == p + [q] + (c + [q]);
    StartsThere(p, q, c + [q]);
    assert v[|p| + 1] == c[0] != q by { FirstInside(c, q); }
    assert v[|p| + 1..] == c + [q];
    ClosesThere(c, q);
    assert forall i :: 0 <= i < |p| ==> p[i] != '\n';
    hide CloseLen, PrefixRun, StartsString;
  }

  lemma FirstInside(c: string, q: char)
    requires c != "" && InsideQuotes(c, q) && q in "\"'"
    ensures c[0] != q
  {
  }

  /** A quoted text on one line, perhaps with a prefix, is one string token with its
      quotes and its prefix. */
  lemma StringIsRead(u: Classes, p: string, q: char, c: string, w: string)
    requires Sane(u) && IsPrefix(p) && q in "\"'" && c != "" && InsideQuotes(c, q) && (w == "" || w[0] !in "\"'")
    ensures var v := p + [q] + c + [q]; Gives(u, v + w, Token(String, v, false), w)
  {
    hide *;
    var v := p + [q] + c + [q];
    ShortString(p, q, c);
    NoQuoteNext(w);
    ReadString(u, v, w);
    assert v == p + [q] + (c + [q]);
    QuoteHead(p, q, c + [q]);
    GivesOne(u, v, w, Token(String, v, false));
  }

  lemma NoQuoteNext(w: string)
    requires w == "" || w[0] !in "\"'"
    ensures w == "" || w[0] !in QUOTES
  {
  }

  lemma QuoteHead(p: string, q: char, s: string)
    requires IsPrefix(p) && q in "\"'"
    ensures (p + [q] + s)[0] !in " \t\r\n#"
  {
    assert (p + [q] + s)[0] == if p == "" then q else p[0];
  }

  /** Between triple quotes there may be line breaks, but here no quote of the kind and
      no backslash. */
  predicate InsideTriple(c: string, q: char) {
    forall i :: 0 <= i < |c| ==> c[i] != q && c[i] != '\\'
  }

  lemma {:induction false} ClosesTriple(c: string, q: char)
    requires InsideTriple(c, q) && q in "\"'"
    ensures CloseLen(c + [q, q, q], q, true) == Some(|c| + 3)
  {
    var s := c + [q, q, q];
    if c == "" {
      assert s == [q, q, q];
    } else {
      assert s[1..] == c[1..] + [q, q, q] && s[0] == c[0];
      ClosesTriple(c[1..], q);
    }
  }

  lemma LongString(p: string, q: char, c: string)
    requires IsPrefix(p) && q in "\"'" && InsideTriple(c, q)
    ensures StringOk(p + [q, q, q] + c + [q, q, q])
  {
    hide *;
    var v := p + [q, q, q] + c + [q, q, q];
    assert v == p + [q] + ([q, q] + c + [q, q, q]);
    StartsThere(p, q, [q, q] + c + [q, q, q]);
    assert v[|p| + 1] == q && v[|p| + 2] == q;
    assert v[|p| + 3..] == c + [q, q, q];
    ClosesTriple(c, q);
    TripleOk(v, |p|, q, |c|);
  }

  lemma TripleOk(v: string, p: nat, q: char, n: nat)
    requires |v| == p + 6 + n && StartsString(v) && PrefixRun(v) == p && v[p] == q && v[p + 1] == q && v[p + 2] == q
    requires CloseLen(v[p + 3..], q, true) == Some(n + 3)
    ensures StringOk(v)
  {
    hide CloseLen, PrefixRun, StartsString;
  }

  /** Triple quotes, with their line breaks kept. */
  lemma TripleIsRead(u: Classes, p: string, q: char, c: string, w: string)
    requires Sane(u) && IsPrefix(p) && q in "\"'" && InsideTriple(c, q) && (w == "" || w[0] !in "\"'")
    ensures var v := p + [q, q, q] + c + [q, q, q]; Gives(u, v + w, Token(String, v, false), w)
  {
    hide *;
    var v := p + [q, q, q] + c + [q, q, q];
    LongString(p, q, c);
    NoQuoteNext(w);
    ReadString(u, v, w);
    assert v == p + [q] + ([q, q] + c + [q, q, q]);
    QuoteHead(p, q, [q, q] + c + [q, q, q]);
    GivesOne(u, v, w, Token(String, v, false));
  }

  // ---- Numbers ----

  predicate AllDigits(u: Classes, v: string) {
    forall i :: 0 <= i < |v| ==> u.digit(v[i]) || v[i] == '_'
  }

  predicate IsFraction(u: Classes, f: string) {
    f == "" || (f[0] == '.' && AllDigits(u, f[1..]))
  }

  predicate IsExponent(u: Classes, e: string) {
    || e == ""
    || ((e[0] == 'e' || e[0] == 'E')
        && (AllDigits(u, e[1..]) || (|e| > 1 && (e[1] == '+' || e[1] == '-') && AllDigits(u, e[2..]))))
  }

  /** Nothing stands there that continues a number. */
  predicate NumberEnds(u: Classes, w: string) {
    w == "" || (!u.digit(w[0]) && w[0] !in "_.eEjJxXoObB+-")
  }

  lemma {:induction false} DigitsThen(u: Classes, a: string, r: string)
    requires AllDigits(u, a) && (r == "" || !IsDigit(u, r[0]))
    ensures DigitRun(u, a + r) == |a|
  {
    if a == "" {
      assert a + r == r;
    } else {
      DigitsThen(u, a[1..], r);
      assert (a + r)[1..] == a[1..] + r;
    }
  }

  lemma FractionThen(u: Classes, f: string, r: string)
    requires IsFraction(u, f) && (r == "" || (!IsDigit(u, r[0]) && r[0] != '.')) && !u.digit('.')
    ensures FractionLen(u, f + r) == |f|
  {
    if f == "" {
      assert f + r == r;
    } else {
      assert (f + r)[1..] == f[1..] + r && (f + r)[0] == '.';
      DigitsThen(u, f[1..], r);
      assert f[1..] != "" ==> (f[1..] + r)[0] == f[1] && f[1] != '.';
      assert f[1..] == "" ==> f[1..] + r == r;
    }
  }

  lemma ExponentThen(u: Classes, e: string, r: string)
    requires IsExponent(u, e) && (r == "" || (!IsDigit(u, r[0]) && r[0] !in "eE+-")) && !u.digit('+') && !u.digit('-')
    ensures ExponentLen(u, e + r) == |e|
  {
    if e == "" {
      assert e + r == r;
    } else {
      var s := e + r;
      assert s[0] == e[0] && s[1..] == e[1..] + r;
      if AllDigits(u, e[1..]) {
        DigitsThen(u, e[1..], r);
        assert e[1..] != "" ==> s[1..][0] == e[1] && e[1] != '+' && e[1] != '-';
        assert e[1..] == "" ==> s[1..] == r;
      } else {
        assert s[1..][0] == e[1] && s[2..] == e[2..] + r;
        DigitsThen(u, e[2..], r);
      }
    }
  }

  /** Digits, a fraction, an exponent and an imaginary mark, of which all but the first
      may be missing; or a fraction that has a digit. */
  ghost predicate IsDecimal(u: Classes, a: string, f: string, e: string, j: string) {
    && AllDigits(u, a) && IsFraction(u, f) && IsExponent(u, e) && (j == "" || j == "j" || j == "J")
    && if a == "" then |f| > 1 && u.digit(f[1]) else u.digit(a[0])
  }

  lemma MarksNoDigits(u: Classes)
    requires Sane(u)
    ensures forall c :: c in ".eEjJ+-" ==> !IsDigit(u, c)
    ensures forall c :: u.digit(c) ==> c !in "xXoObB" && c !in QUOTES && c !in PREFIXES && c !in " \t\r\n#" && c != '.'
  {
    assert forall c :: c in ".+-" ==> c in SINGLES || c in OP_CHARS;
    assert forall c :: c in "eEjJ" ==> c in MARKERS;
    assert forall c :: c in "xXoObB" ==> c in MARKERS || c in PREFIXES;
    assert forall c :: c in "#" ==> c in OTHERS;
    assert forall c :: c in " \t\r\n" ==> c in BLANKS;
    assert '.' in SINGLES;
  }

  /** What follows the digits, or the fraction, is not taken for part of them. */
  lemma TailHeads(u: Classes, e: string, j: string, w: string)
    requires Sane(u) && IsExponent(u, e) && (j == "" || j == "j" || j == "J") && NumberEnds(u, w)
    ensures var r := e + (j + w); r == "" || (!IsDigit(u, r[0]) && r[0] !in ".xXoObB")
    ensures var r := j + w; r == "" || (!IsDigit(u, r[0]) && r[0] !in "eE+-")
  {
    MarksNoDigits(u);
    assert j == "" ==> j + w == w;
    assert e == "" ==> e + (j + w) == j + w;
  }

  lemma FractionHead(u: Classes, f: string, r: string)
    requires Sane(u) && IsFraction(u, f) && (r == "" || !IsDigit(u, r[0]))
    ensures f + r == "" || !IsDigit(u, (f + r)[0])
    ensures !u.digit('.') && !u.digit('+') && !u.digit('-')
  {
    MarksNoDigits(u);
    assert f + r != "" ==> (f + r)[0] == if f == "" then r[0] else f[0];
  }

  lemma DecimalOf(u: Classes, s: string, i: nat, k: nat)
    requires DigitRun(u, s) == i && FractionLen(u, s[i..]) == k
    ensures DecimalLen(u, s) == i + k + ExponentLen(u, s[i + k..])
  {
  }

  lemma Rests(a: string, f: string, r: string)
    ensures (a + (f + r))[|a|..] == f + r && (a + (f + r))[|a| + |f|..] == r
  {
  }

  lemma DecimalShape(u: Classes, a: string, f: string, e: string, r: string)
    requires Sane(u) && AllDigits(u, a) && IsFraction(u, f) && IsExponent(u, e)
    requires e + r == "" || (!IsDigit(u, (e + r)[0]) && (e + r)[0] != '.')
    requires r == "" || (!IsDigit(u, r[0]) && r[0] !in "eE+-")
    ensures DecimalLen(u, a + (f + (e + r))) == |a| + |f| + |e|
  {
    hide *;
    FractionHead(u, f, e + r);
    Rests(a, f, e + r);
    DigitsThen(u, a, f + (e + r));
    FractionThen(u, f, e + r);
    ExponentThen(u, e, r);
    DecimalOf(u, a + (f + (e + r)), |a|, |f|);
  }

  lemma DecimalPieces(u: Classes, a: string, f: string, e: string, j: string)
    requires IsDecimal(u, a, f, e, j)
    ensures AllDigits(u, a) && IsFraction(u, f) && IsExponent(u, e) && (j == "" || j == "j" || j == "J")
  {
  }

  lemma TailDigits(r: string)
    requires r == "" || r[0] !in ".xXoObB"
    ensures r == "" || r[0] != '.'
  {
  }

  lemma Regroup(a: string, f: string, e: string, j: string, w: string)
    ensures a + f + e + j + w == a + (f + (e + (j + w)))
  {
  }

  lemma NotRadix(u: Classes, a: string, f: string, e: string, j: string, w: string)
    requires Sane(u) && IsDecimal(u, a, f, e, j) && NumberEnds(u, w)
    ensures !IsRadix(a + (f + (e + (j + w))))
  {
    hide *;
    DecimalPieces(u, a, f, e, j);
    TailHeads(u, e, j, w);
    NotRadixHead(u, a, f, e + (j + w));
    FirstDigit(u, a, f, e, j);
    NotRadixOf(u, a, f, e + (j + w));
  }

  lemma FirstDigit(u: Classes, a: string, f: string, e: string, j: string)
    requires IsDecimal(u, a, f, e, j)
    ensures a == "" ==> f != ""
  {
  }

  lemma NotRadixHead(u: Classes, a: string, f: string, r: string)
    requires Sane(u) && AllDigits(u, a) && IsFraction(u, f) && (r == "" || r[0] !in ".xXoObB")
    ensures |a| > 1 ==> a[1] !in "xXoObB"
    ensures f + r != "" ==> (f + r)[0] !in "xXoObB"
  {
    MarksNoDigits(u);
    assert f + r != "" ==> (f + r)[0] == if f == "" then r[0] else f[0];
  }

  lemma NotRadixOf(u: Classes, a: string, f: string, r: string)
    requires IsFraction(u, f) && (a == "" ==> f != "")
    requires |a| > 1 ==> a[1] !in "xXoObB"
    requires f + r != "" ==> (f + r)[0] !in "xXoObB"
    ensures !IsRadix(a + (f + r))
  {
    var s := a + (f + r);
    if |a| > 1 {
      assert s[1..][0] == a[1];
    } else if |a| == 1 {
      assert s[1..] == f + r;
    } else {
      assert s[0] == f[0];
    }
  }

  lemma NumberOf(u: Classes, s: string, n: nat, j: string, w: string)
    requires !IsRadix(s) && DecimalLen(u, s) == n && s[n..] == j + w
    requires (j == "" || j == "j" || j == "J") && NumberEnds(u, w)
    ensures NumberLen(u, s) == n + |j|
  {
    hide DecimalLen, IsRadix;
    assert j == "" ==> j + w == w;
    assert j != "" ==> (j + w)[0] == j[0];
  }

  lemma RestAfter(a: string, f: string, e: string, r: string)
    ensures (a + (f + (e + r)))[|a| + |f| + |e|..] == r
  {
  }

  lemma DecimalLength(u: Classes, a: string, f: string, e: string, j: string, w: string)
    requires Sane(u) && IsDecimal(u, a, f, e, j) && NumberEnds(u, w)
    ensures NumberLen(u, a + f + e + j + w) == |a| + |f| + |e| + |j|
  {
    hide *;
    DecimalPieces(u, a, f, e, j);
    TailHeads(u, e, j, w);
    TailDigits(e + (j + w));
    NotRadix(u, a, f, e, j, w);
    DecimalShape(u, a, f, e, j + w);
    RestAfter(a, f, e, j + w);
    NumberOf(u, a + (f + (e + (j + w))), |a| + |f| + |e|, j, w);
    Regroup(a, f, e, j, w);
  }

  lemma DecimalStarts(u: Classes, a: string, f: string, e: string, j: string, w: string)
    requires Sane(u) && IsDecimal(u, a, f, e, j)
    ensures var s := a + f + e + j + w;
            s != "" && StartsNumber(u, s) && !StartsString(s) && s[0] !in " \t\r\n#"
  {
    MarksNoDigits(u);
    var s := a + f + e + j + w;
    if a == "" {
      assert s[0] == f[0] && s[1] == f[1];
    } else {
      assert s[0] == a[0];
    }
    assert '.' !in QUOTES && '.' !in PREFIXES;
  }

  /** A decimal number is one token. */
  lemma DecimalIsRead(u: Classes, a: string, f: string, e: string, j: string, w: string)
    requires Sane(u) && IsDecimal(u, a, f, e, j) && NumberEnds(u, w)
    ensures var v := a + f + e + j; Gives(u, v + w, Token(Number, v, false), w)
  {
    var v := a + f + e + j;
    DecimalLength(u, a, f, e, j, w);
    DecimalStarts(u, a, f, e, j, w);
    hide NumberLen, StartsNumber, StartsString, IsDecimal, Sane, NumberEnds;
    assert (v + w)[..|v|] == v;
    assert (v + w)[0] == v[0];
    hide *;
    assert Read(u, v + w) == Some((Token(Number, v, false), |v|)) by { ReadsNumber(u, v, w); }
    GivesOne(u, v, w, Token(Number, v, false));
  }

  lemma ReadsNumber(u: Classes, v: string, w: string)
    requires v != "" && StartsNumber(u, v + w) && !StartsString(v + w) && NumberLen(u, v + w) == |v|
    ensures Read(u, v + w) == Some((Token(Number, v, false), |v|))
  {
    hide NumberLen, StartsNumber, StartsString;
    assert (v + w)[..|v|] == v;
  }

  lemma RadixLength(u: Classes, m: char, x: string, w: string)
    requires Sane(u) && m in "xXoObB" && AllWord(u, x) && WordEnds(u, w) && (w == "" || w[0] !in "jJ")
    ensures NumberLen(u, "0" + [m] + x + w) == 2 + |x|
  {
    var s := "0" + [m] + x + w;
    assert s[2..] == x + w && s[1..][0] == m && s[0] == '0';
    WholeWord(u, x, w);
    assert s[2 + |x|..] == w;
    hide WordRun, DecimalLen;
  }

  /** And so is one with another radix, if zero is a digit. */
  lemma RadixIsRead(u: Classes, m: char, x: string, w: string)
    requires Sane(u) && u.digit('0') && m in "xXoObB" && AllWord(u, x) && WordEnds(u, w) && (w == "" || w[0] !in "jJ")
    ensures var v := "0" + [m] + x; Gives(u, v + w, Token(Number, v, false), w)
  {
    var v := "0" + [m] + x;
    RadixLength(u, m, x, w);
    ZeroStarts(u, v + w);
    assert v[0] !in " \t\r\n#";
    hide *;
    ReadsNumber(u, v, w);
    GivesOne(u, v, w, Token(Number, v, false));
  }

  lemma ZeroStarts(u: Classes, s: string)
    requires u.digit('0') && s != "" && s[0] == '0'
    ensures StartsNumber(u, s) && !StartsString(s)
  {
  }

  // ---- Printing ----

  /** The blank between two printed tokens, or none. */
  function Gap(prev: Token, cur: Token): string {
    if cur.value == "." || cur.value == ")" || cur.value == "]" || cur.value == "," || cur.value == ":" || cur.value == ";" then ""
    else if prev.value == "." || prev.value == "(" || prev.value == "[" || prev.value == "~" then ""
    else if cur.value == "(" || cur.value == "[" then
      (if prev.kind == Name || prev.kind == String || prev.value == ")" || prev.value == "]" then "" else " ")
    else " "
  }

  lemma GapIsGlue(prev: Token, cur: Token)
    ensures Gap(prev, cur) == if Glued(prev, cur) then "" else " "
  {
  }

  lemma JoinTwo(ts: seq<Token>)
    requires |ts| > 1
    ensures Join(ts) == ts[0].value + (Gap(ts[0], ts[1]) + Join(ts[1..]))
  {
    GapIsGlue(ts[0], ts[1]);
    hide Glued, Gap;
  }

  lemma JoinOne(t: Token)
    ensures Join([t]) == t.value
  {
  }

  /** One more token adds the gap and its text. */
  lemma {:induction false} PrintedText(ts: seq<Token>, t: Token)
    requires ts != []
    ensures Join(ts + [t]) == Join(ts) + Gap(ts[|ts| - 1], t) + t.value
    decreases |ts|
  {
    hide *;
    var all := ts + [t];
    assert all[0] == ts[0] && all[1..] == ts[1..] + [t];
    JoinTwo(all);
    if |ts| == 1 {
      assert all[1..] == [t] && all[1] == t && ts == [ts[0]];
      JoinOne(t);
      JoinOne(ts[0]);
    } else {
      assert all[1] == ts[1];
      JoinTwo(ts);
      PrintedText(ts[1..], t);
    }
  }
}
