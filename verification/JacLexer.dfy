/** The lexer as an object that moves a position through its source text. */
module JacLexer {
  import opened JacTokens
  import opened Wrappers
  import opened Numbers

  /** Line and column of the `k`th character, both counted from one. */
  function LineAt(s: string, k: nat): int
    requires k <= |s|
  {
    if k == 0 then 1 else LineAt(s, k - 1) + (if s[k - 1] == '\n' then 1 else 0)
  }

  function ColAt(s: string, k: nat): int
    requires k <= |s|
  {
    if k == 0 || s[k - 1] == '\n' then 1 else ColAt(s, k - 1) + 1
  }

  datatype Placed = Placed(token: Token, line: int, col: int)

  function TokensOf(placed: seq<Placed>): (ts: seq<Token>)
    ensures |ts| == |placed|
  {
    seq(|placed|, i requires 0 <= i < |placed| => placed[i].token)
  }

  /** This token starts there. */
  ghost predicate Starts(u: Classes, s: string, k: nat, t: Token) {
    k < |s| && Read(u, s[k..]).Some? && Read(u, s[k..]).value.0 == t
  }

  /** Where the next token is looked for once those that start at `starts` are read. */
  ghost function After(u: Classes, s: string, starts: seq<nat>): nat {
    if starts == [] then 0
    else
      var k := starts[|starts| - 1];
      if k < |s| && Read(u, s[k..]).Some? then k + Read(u, s[k..]).value.1 else |s|
  }

  /** The tokens start there, one behind the other with nothing but blanks and comments
      before each, and carry the lines and columns of those places. */
  ghost predicate InOrder(u: Classes, s: string, ps: seq<Placed>, starts: seq<nat>) {
    && |starts| == |ps|
    && forall i :: 0 <= i < |ps| ==>
         && starts[i] < |s| && ps[i].line == LineAt(s, starts[i]) && ps[i].col == ColAt(s, starts[i])
         && Starts(u, s, starts[i], ps[i].token)
         && After(u, s, starts[..i]) <= starts[i] && Skip(s[After(u, s, starts[..i])..]) == s[starts[i]..]
  }

  lemma OneMoreInOrder(u: Classes, s: string, ps: seq<Placed>, starts: seq<nat>, p: Placed, k: nat)
    requires InOrder(u, s, ps, starts) && k < |s| && p.line == LineAt(s, k) && p.col == ColAt(s, k) && Starts(u, s, k, p.token)
    requires After(u, s, starts) <= k && Skip(s[After(u, s, starts)..]) == s[k..]
    ensures InOrder(u, s, ps + [p], starts + [k]) && After(u, s, starts + [k]) == k + Read(u, s[k..]).value.1
  {
    hide Read, Skip, LineAt, ColAt;
    var all := starts + [k];
    forall i | 0 <= i < |all| ensures all[..i] == starts[..if i < |starts| then i else |starts|] {
    }
    assert starts[..|starts|] == starts;
  }

  lemma NoneInOrder(u: Classes, s: string)
    ensures InOrder(u, s, [], []) && After(u, s, []) == 0
  {
  }

  /** The first line has no break before it, and a later one starts behind a break;
      columns count from one from there. */
  lemma PlacesCount(s: string, j: nat, k: nat)
    requires j <= k <= |s| && (forall i :: j <= i < k ==> s[i] != '\n') && (j == 0 || s[j - 1] == '\n')
    ensures ColAt(s, k) == k - j + 1
    ensures LineAt(s, k) == if j == 0 then 1 else LineAt(s, j - 1) + 1
    decreases k
  {
    if k > j {
      PlacesCount(s, j, k - 1);
    }
  }

  /** Membership as the host language has it: the empty string is in every string. */
  predicate In(c: string, chars: string) {
    c == "" || c[0] in chars
  }

  class Lexer {
    const u: Classes
    const source: string
    var pos: nat
    var line: int
    var col: int
    var tokens: seq<Placed>

    constructor (u: Classes, source: string)
      ensures this.u == u && this.source == source && pos == 0 && tokens == [] && Valid()
    {
      this.u, this.source, pos, line, col, tokens := u, source, 0, 1, 1, [];
    }

    /** The position may have been moved past the end. */
    function At(): (k: nat)
      reads this`pos
      ensures k <= |source|
    {
      Min(pos, |source|)
    }

    function Rest(): string
      reads this`pos
    {
      source[At()..]
    }

    predicate Valid()
      reads this`pos, this`line, this`col
    {
      line == LineAt(source, At()) && col == ColAt(source, At())
    }

    function Ch(): (c: string)
      reads this`pos
      ensures |c| <= 1 && (c == "" <==> Rest() == "") && (c != "" ==> c[0] == Rest()[0])
    {
      if pos < |source| then [source[pos]] else ""
    }

    function Peek(offset: nat): (c: string)
      reads this`pos
      ensures |c| <= 1 && (c == "" <==> |Rest()| <= offset) && (c != "" ==> c[0] == Rest()[offset])
    {
      if pos + offset < |source| then [source[pos + offset]] else ""
    }

    method Advance(n: nat)
      requires Valid()
      modifies this`pos, this`line, this`col
      ensures Valid() && At() == Min(old(At()) + n, |source|)
      ensures Rest() == old(Rest())[Min(n, |old(Rest())|)..]
    {
      var end := Min(pos + n, |source|);
      var k := Min(pos, |source|);
      while k < end
        invariant pos == old(pos) && At() <= k <= end <= |source|
        invariant line == LineAt(source, k) && col == ColAt(source, k)
      {
        if source[k] == '\n' {
          line := line + 1;
          col := 1;
        } else {
          col := col + 1;
        }
        k := k + 1;
      }
      pos := pos + n;
    }

    method TakeDigits()
      requires Valid()
      modifies this`pos, this`line, this`col
      ensures Valid() && At() == old(At()) + DigitRun(u, old(Rest()))
    {
      while pos < |source| && (u.digit(source[pos]) || source[pos] == '_')
        invariant Valid() && old(At()) <= At()
        invariant At() + DigitRun(u, Rest()) == old(At()) + DigitRun(u, old(Rest()))
        decreases |source| - pos
      {
        assert Rest()[0] == source[pos];
        Advance(1);
      }
    }

    method TakeWords()
      requires Valid()
      modifies this`pos, this`line, this`col
      ensures Valid() && At() == old(At()) + WordRun(u, old(Rest()))
    {
      while pos < |source| && (u.alnum(source[pos]) || source[pos] == '_')
        invariant Valid() && old(At()) <= At()
        invariant At() + WordRun(u, Rest()) == old(At()) + WordRun(u, old(Rest()))
        decreases |source| - pos
      {
        assert Rest()[0] == source[pos];
        Advance(1);
      }
    }

    lemma AtEnd()
      ensures pos >= |source| <==> Rest() == ""
      ensures pos < |source| ==> Rest()[0] == source[pos] && Rest()[1..] == source[pos + 1..]
    {
    }

    lemma HereIs()
      requires Valid()
      ensures Rest() == source[At()..] && line == LineAt(source, At()) && col == ColAt(source, At())
    {
    }

    lemma WholeText()
      requires At() == 0
      ensures Rest() == source
    {
    }

    /** The rest of the text `n` characters further. */
    lemma RestIs(from: nat, n: nat)
      requires from <= |source| && At() == from + n
      ensures n <= |source| - from && Rest() == source[from..][n..]
    {
    }

    method SkipBlockComment()
      requires Valid()
      modifies this`pos, this`line, this`col
      ensures Valid() && Rest() == AfterBlock(old(Rest())) && At() >= old(At())
    {
      while pos < |source|
        invariant Valid() && At() >= old(At()) && AfterBlock(Rest()) == AfterBlock(old(Rest()))
        decreases |source| - pos
      {
        AtEnd();
        if Ch() == "*" && Peek(1) == "#" {
          Advance(2);
          return;
        }
        Advance(1);
      }
      AtEnd();
    }

    method SkipLineComment()
      requires Valid()
      modifies this`pos, this`line, this`col
      ensures Valid() && Rest() == AfterLine(old(Rest())) && At() >= old(At())
    {
      while pos < |source| && Ch() != "\n"
        invariant Valid() && At() >= old(At()) && AfterLine(Rest()) == AfterLine(old(Rest()))
        decreases |source| - pos
      {
        AtEnd();
        Advance(1);
      }
      AtEnd();
    }

    method SkipWsAndComments()
      requires Valid()
      modifies this`pos, this`line, this`col
      ensures Valid() && Rest() == Skip(old(Rest())) && At() >= old(At())
    {
      while pos < |source|
        invariant Valid() && At() >= old(At()) && Skip(Rest()) == Skip(old(Rest()))
        decreases |Rest()|
      {
        AtEnd();
        ghost var rest := Rest();
        var c := Ch();
        if c[0] in BLANKS {
          Advance(1);
        } else if c == "#" {
          if Peek(1) == "*" {
            Advance(2);
            SkipBlockComment();
          } else {
            SkipLineComment();
          }
        } else {
          return;
        }
      }
      AtEnd();
    }

    method TakeFraction()
      requires Valid()
      modifies this`pos, this`line, this`col
      ensures Valid() && At() == old(At()) + FractionLen(u, old(Rest()))
    {
      hide DigitRun, Valid;
      if Ch() == "." && Peek(1) != "." {
        Advance(1);
        TakeDigits();
      }
    }

    method TakeExponent()
      requires Valid()
      modifies this`pos, this`line, this`col
      ensures Valid() && At() == old(At()) + ExponentLen(u, old(Rest()))
    {
      hide Valid;
      ghost var rest := Rest();
      if In(Ch(), "eE") {
        Advance(1);
        ghost var tail := Rest();
        if In(Ch(), "+-") {
          Advance(1);
          assert rest != "" && HeadIn(tail, "+-") ==> Rest() == rest[2..];
        }
        TakeDigits();
      }
    }

    method TakeDecimal()
      requires Valid()
      modifies this`pos, this`line, this`col
      ensures Valid() && At() == old(At()) + DecimalLen(u, old(Rest()))
    {
      hide DigitRun, FractionLen, ExponentLen, Valid;
      ghost var rest, start := Rest(), At();
      TakeDigits();
      RestIs(start, DigitRun(u, rest));
      TakeFraction();
      RestIs(start, DigitRun(u, rest) + FractionLen(u, rest[DigitRun(u, rest)..]));
      TakeExponent();
    }

    /** The body of a number. At the end of the text the tests on the next character
        hold of the empty string, and the position runs past the end. */
    method TakeBody()
      requires Valid() && StartsNumber(u, Rest())
      modifies this`pos, this`line, this`col
      ensures Valid() && At() == old(At()) + BodyLen(u, old(Rest()))
    {
      ghost var rest := Rest();
      RadixTest(u, rest);
      NoWords(u);
      hide WordRun, DecimalLen, BodyLen, Valid, StartsNumber;
      if Ch() == "0" && In(Peek(1), "xXoObB") {
        Advance(2);
        TakeWords();
      } else {
        TakeDecimal();
      }
    }

    /** What has been read since `from`. */
    method Slice(from: nat, ghost n: nat) returns (text: string)
      requires from <= |source| && At() == from + n
      ensures n <= |source| - from && text == source[from..][..n]
    {
      text := source[from..Min(pos, |source|)];
    }

    method ReadNumber()
      requires Valid() && StartsNumber(u, Rest())
      modifies this
      ensures Valid() && At() == old(At()) + NumberLen(u, old(Rest()))
      ensures tokens == old(tokens) + [Placed(Token(Number, old(Rest())[..NumberLen(u, old(Rest()))], false), old(line), old(col))]
    {
      hide BodyLen, StartsNumber, Valid;
      ghost var rest := Rest();
      var startLine, startCol, from := line, col, At();
      TakeBody();
      RestIs(from, BodyLen(u, rest));
      if In(Ch(), "jJ") {
        Advance(1);
      }
      var text := Slice(from, NumberLen(u, rest));
      Emit(Number, text, false, startLine, startCol);
    }

    method ReadName()
      requires Valid()
      modifies this
      ensures Valid() && At() == old(At()) + WordRun(u, old(Rest()))
      ensures tokens == old(tokens) + [Placed(Token(Name, old(Rest())[..WordRun(u, old(Rest()))], false), old(line), old(col))]
    {
      hide WordRun, Valid;
      var startLine, startCol, from := line, col, At();
      TakeWords();
      var text := Slice(from, WordRun(u, old(Rest())));
      Emit(Name, text, false, startLine, startCol);
    }

    method ReadBacktickName()
      requires Valid() && Rest() != ""
      modifies this
      ensures var rest := old(Rest()); var n := WordRun(u, rest[1..]);
              && Valid() && At() == old(At()) + 1 + n
              && tokens == old(tokens) + [Placed(Token(Name, rest[1..1 + n], true), old(line), old(col))]
    {
      hide WordRun, Valid;
      ghost var rest := Rest();
      var startLine, startCol := line, col;
      Advance(1);
      var from := At();
      assert Rest() == rest[1..];
      TakeWords();
      var text := Slice(from, WordRun(u, rest[1..]));
      assert text == rest[1..1 + WordRun(u, rest[1..])];
      Emit(Name, text, true, startLine, startCol);
    }

    method TakePrefix()
      requires Valid()
      modifies this`pos, this`line, this`col
      ensures Valid() && At() == old(At()) + PrefixRun(old(Rest()))
    {
      while pos < |source| && source[pos] in PREFIXES
        invariant Valid() && old(At()) <= At()
        invariant At() + PrefixRun(Rest()) == old(At()) + PrefixRun(old(Rest()))
        decreases |source| - pos
      {
        assert Rest()[0] == source[pos];
        Advance(1);
      }
    }

    /** The end of the body: past the closing quote, or the end of the text. */
    method TakeStringBody(q: char, triple: bool)
      requires Valid()
      modifies this`pos, this`line, this`col
      ensures Valid()
      ensures match CloseLen(old(Rest()), q, triple)
              case None => At() == |source|
              case Some(n) => At() == old(At()) + n
    {
      ghost var start, whole := At(), CloseLen(Rest(), q, triple);
      while pos < |source|
        invariant Valid() && start <= At()
        invariant whole.None? <==> CloseLen(Rest(), q, triple).None?
        invariant whole.Some? ==> At() + CloseLen(Rest(), q, triple).value == start + whole.value
        decreases |source| - pos
      {
        AtEnd();
        var c := source[pos];
        if c == '\\' {
          Advance(2);
          continue;
        }
        if triple {
          if c == q && Peek(1) == [q] && Peek(2) == [q] {
            Advance(3);
            return;
          }
          Advance(1);
        } else {
          if c == q {
            Advance(1);
            return;
          }
          Advance(1);
        }
      }
    }

    /** The prefix and the opening quotes. */
    method TakeOpening() returns (q: char, triple: bool)
      requires Valid() && StartsString(Rest())
      modifies this`pos, this`line, this`col
      ensures Valid()
      ensures var rest := old(Rest());
              && PrefixRun(rest) < |rest| && q == rest[PrefixRun(rest)] && (triple <==> IsTriple(rest))
              && var open := if IsTriple(rest) then PrefixRun(rest) + 3 else PrefixRun(rest) + 1;
                 open <= |rest| && At() == old(At()) + open && Rest() == rest[open..]
    {
      hide CloseLen, Valid, Collapsed;
      ghost var rest, from := Rest(), At();
      TakePrefix();
      RestIs(from, PrefixRun(rest));
      QuoteAt(rest);
      hide StartsString, PrefixRun;
      q := Ch()[0];
      Advance(1);
      triple := Ch() == [q] && Peek(1) == [q];
      assert triple <==> IsTriple(rest);
      if triple {
        Advance(2);
      }
    }

    method ReadString()
      requires Valid() && StartsString(Rest())
      modifies this
      ensures Valid() && At() == old(At()) + StringLen(old(Rest()))
      ensures tokens == old(tokens) + [Placed(Token(String, StringValue(u, old(Rest())), false), old(line), old(col))]
    {
      hide CloseLen, Valid, Collapsed, PrefixRun, IsTriple, StartsString;
      ghost var rest := Rest();
      var startLine, startCol, from := line, col, At();
      var q, triple := TakeOpening();
      TakeStringBody(q, triple);
      assert At() == from + StringLen(rest);
      var value := Slice(from, StringLen(rest));
      assert value == rest[..StringLen(rest)];
      hide StringLen;
      if !triple && '\n' in value {
        value := Collapsed(u, value);
      }
      Emit(String, value, false, startLine, startCol);
    }

    /** Whether a string starts here, perhaps with a prefix. The position is tried
        out and put back. */
    method IsStringPrefix() returns (b: bool)
      requires Valid()
      modifies this`pos
      ensures pos == old(pos) && b == HeadIn(Rest()[PrefixRun(Rest())..], QUOTES)
    {
      var save := pos;
      while pos < |source| && source[pos] in PREFIXES
        invariant old(At()) <= At() && old(pos) <= pos
        invariant At() + PrefixRun(Rest()) == old(At()) + PrefixRun(old(Rest()))
        decreases |source| - pos
      {
        AtEnd();
        pos := pos + 1;
      }
      b := pos < |source| && source[pos] in QUOTES;
      AtEnd();
      RestIs(old(At()), PrefixRun(old(Rest())));
      pos := save;
    }

    /** Three characters, two, or one. */
    method ReadPunctuation() returns (ok: bool)
      requires Valid() && Rest() != ""
      modifies this
      ensures Valid()
      ensures var p := Punct(old(Rest()));
              && (ok <==> p.Some?)
              && (ok ==> At() == old(At()) + p.value.1)
              && tokens == if ok then old(tokens) + [Placed(Token(p.value.0, old(Rest())[..p.value.1], false), old(line), old(col))]
                           else old(tokens)
    {
      AtEnd();
      Punctuated(Rest());
      hide Punct1, Punct2, Punct3, Punct, Valid;
      var startLine, startCol := line, col;
      var three := source[pos..Min(pos + 3, |source|)];
      var two := source[pos..Min(pos + 2, |source|)];
      var one := source[pos..pos + 1];
      assert three == Take(Rest(), 3) && two == Take(Rest(), 2) && one == Take(Rest(), 1);
      var kind3, kind2, kind1 := Punct3(three), Punct2(two), Punct1(one);
      if kind3.Some? {
        Advance(3);
        Emit(kind3.value, three, false, startLine, startCol);
      } else if kind2.Some? {
        Advance(2);
        Emit(kind2.value, two, false, startLine, startCol);
      } else if kind1.Some? {
        Advance(1);
        Emit(kind1.value, one, false, startLine, startCol);
      } else {
        return false;
      }
      return true;
    }

    /** One round of `_tokenize`, at a character that is no blank and starts no comment. */
    method ReadToken() returns (ok: bool)
      requires Valid() && Rest() != "" && Sane(u)
      modifies this
      ensures Valid()
      ensures var r := Read(u, old(Rest()));
              && (ok <==> r.Some?)
              && (ok ==> At() == old(At()) + r.value.1)
              && tokens == if ok then old(tokens) + [Placed(r.value.0, old(line), old(col))] else old(tokens)
    {
      hide Valid, StringValue, StringLen, NumberLen, WordRun, Punct, PrefixRun;
      AtEnd();
      var c := source[pos];
      var prefixed := false;
      if c in PREFIXES {
        prefixed := IsStringPrefix();
      }
      ok := true;
      if c in QUOTES || prefixed {
        ReadString();
      } else if u.digit(c) || (c == '.' && Peek(1) != "" && u.digit(Peek(1)[0])) {
        ReadNumber();
      } else if c == '`' {
        ReadBacktickName();
      } else if u.alpha(c) || c == '_' {
        ReadName();
      } else {
        ok := ReadPunctuation();
      }
    }

    /** Skips and reads one token, unless the text has ended. */
    method NextToken(ghost starts: seq<nat>) returns (ok: bool, ended: bool, ghost starts': seq<nat>)
      requires Valid() && Sane(u) && InOrder(u, source, tokens, starts) && At() == After(u, source, starts)
      modifies this
      ensures Valid() && InOrder(u, source, tokens, starts')
      ensures ended ==> Lex(u, old(Rest())) == Some([])
      ensures ended || !ok ==> tokens == old(tokens)
      ensures !ended && !ok ==> Lex(u, old(Rest())) == None
      ensures !ended && ok ==>
        && |Rest()| < |old(Rest())| && At() == After(u, source, starts')
        && |tokens| > 0 && tokens[..|tokens| - 1] == old(tokens)
        && Lex(u, old(Rest())) == Before(tokens[|tokens| - 1].token, Lex(u, Rest()))
    {
      hide *;
      ok, ended, starts' := true, false, starts;
      HereIs();
      LexRound(u, Rest());
      SkipWsAndComments();
      AtEnd();
      HereIs();
      if pos >= |source| {
        ended := true;
        return;
      }
      ghost var before, k := tokens, At();
      ok := ReadToken();
      if !ok {
        return;
      }
      var placed := tokens[|before|];
      assert tokens[..|tokens| - 1] == before;
      PlacedHere(u, source, k, placed);
      OneMoreInOrder(u, source, before, starts, placed, k);
      starts' := starts + [k];
      RestIs(k, Read(u, source[k..]).value.1);
    }

    /** Reads the whole text. It succeeds exactly if every character can be read,
        and every token then carries the place of its first character. */
    method Tokenize() returns (ok: bool, ghost starts: seq<nat>)
      requires Valid() && Sane(u) && At() == 0 && tokens == []
      modifies this
      ensures ok <==> Lex(u, source).Some?
      ensures ok ==> Lex(u, source) == Some(TokensOf(tokens))
      ensures InOrder(u, source, tokens, starts)
    {
      hide *;
      WholeText();
      NoneInOrder(u, source);
      NoTokens();
      ghost var all := Lex(u, source);
      starts := [];
      CompletesStart(all);
      while true
        invariant Valid() && InOrder(u, source, tokens, starts) && At() == After(u, source, starts)
        invariant Completes(all, TokensOf(tokens), Lex(u, Rest()))
        decreases |Rest()|
      {
        ghost var before, text := tokens, Rest();
        var ended;
        ok, ended, starts := NextToken(starts);
        if ended || !ok {
          CompletesEnd(all, TokensOf(tokens), Lex(u, text));
          return ended, starts;
        }
        CompletesStep(all, before, tokens, Lex(u, Rest()));
      }
    }

    method Emit(kind: TT, value: string, backtick: bool, line: int, col: int)
      modifies this`tokens
      ensures tokens == old(tokens) + [Placed(Token(kind, value, backtick), line, col)]
    {
      tokens := tokens + [Placed(Token(kind, value, backtick), line, col)];
    }
  }

  lemma RadixTest(u: Classes, s: string)
    requires StartsNumber(u, s)
    ensures var radix := s[0] == '0' && (|s| == 1 || s[1] in "xXoObB");
            && (radix && |s| == 1 ==> BodyLen(u, s) == 1)
            && (radix && |s| > 1 ==> BodyLen(u, s) == 2 + WordRun(u, s[2..]))
            && (!radix ==> BodyLen(u, s) == DecimalLen(u, s))
  {
    assert |s| > 1 ==> s[1..][0] == s[1];
  }

  lemma NoWords(u: Classes)
    ensures WordRun(u, "") == 0
  {
  }

  lemma QuoteAt(s: string)
    requires StartsString(s)
    ensures PrefixRun(s) < |s| && s[PrefixRun(s)..] != "" && s[PrefixRun(s)..][0] == s[PrefixRun(s)]
  {
    hide QUOTES;
    if HeadIn(s, QUOTES) {
      assert s[PrefixRun(s)..] != "" by { QuoteNoPrefix(s); }
    }
  }

  lemma QuoteNoPrefix(s: string)
    requires HeadIn(s, QUOTES)
    ensures PrefixRun(s) == 0
  {
    assert s[0] !in PREFIXES;
  }

  lemma Punctuated(s: string)
    requires s != ""
    ensures Punct1(Take(s, 1)) == Punct1(s)
    ensures Punct(s) ==
      if Punct3(Take(s, 3)).Some? then Some((Punct3(Take(s, 3)).value, 3))
      else if Punct2(Take(s, 2)).Some? then Some((Punct2(Take(s, 2)).value, 2))
      else if Punct1(s).Some? then Some((Punct1(s).value, 1))
      else None
    ensures Punct3(Take(s, 3)).Some? ==> |s| >= 3 && Take(s, 3) == s[..3]
    ensures Punct2(Take(s, 2)).Some? ==> |s| >= 2 && Take(s, 2) == s[..2]
    ensures Take(s, 1) == s[..1]
  {
  }

  lemma NoTokens()
    ensures TokensOf([]) == []
  {
  }

  lemma TokensAppend(a: seq<Placed>, p: Placed)
    ensures TokensOf(a + [p]) == TokensOf(a) + [p.token]
  {
  }

  lemma PlacedHere(u: Classes, s: string, k: nat, p: Placed)
    requires k < |s| && Read(u, s[k..]).Some? && Read(u, s[k..]).value.0 == p.token
    ensures Starts(u, s, k, p.token)
  {
    hide Read;
  }

  function Before(t: Token, rest: Option<seq<Token>>): Option<seq<Token>> {
    match rest case None => None case Some(ts) => Some([t] + ts)
  }

  /** The tokens so far, with those of the rest, are all of them. */
  ghost predicate Completes(all: Option<seq<Token>>, done: seq<Token>, rest: Option<seq<Token>>) {
    all == match rest case None => None case Some(ts) => Some(done + ts)
  }

  lemma CompletesStart(all: Option<seq<Token>>)
    ensures Completes(all, [], all)
  {
    assert all.Some? ==> [] + all.value == all.value;
  }

  lemma CompletesEnd(all: Option<seq<Token>>, done: seq<Token>, rest: Option<seq<Token>>)
    requires Completes(all, done, rest)
    ensures rest == Some([]) ==> all == Some(done)
    ensures rest == None ==> all == None
  {
    assert done + [] == done;
  }

  lemma CompletesStep(all: Option<seq<Token>>, before: seq<Placed>, placed: seq<Placed>, rest: Option<seq<Token>>)
    requires |placed| > 0 && placed[..|placed| - 1] == before
    requires Completes(all, TokensOf(before), Before(placed[|placed| - 1].token, rest))
    ensures Completes(all, TokensOf(placed), rest)
  {
    var p, done := placed[|placed| - 1], TokensOf(before);
    assert placed == before + [p];
    TokensAppend(before, p);
    assert rest.Some? ==> done + ([p.token] + rest.value) == done + [p.token] + rest.value;
  }

  lemma LexRound(u: Classes, s: string)
    requires Sane(u)
    ensures var t := Skip(s);
            && (t == "" ==> Lex(u, s) == Some([]))
            && (t != "" && Read(u, t).None? ==> Lex(u, s) == None)
            && (t != "" && Read(u, t).Some? ==>
                  var (token, n) := Read(u, t).value;
                  n > 0 && Lex(u, s) == Before(token, Lex(u, t[n..])))
  {
    hide Read, Skip;
    if Skip(s) != "" && Read(u, Skip(s)).Some? {
      ReadAdvances(u, Skip(s));
    }
  }
}
