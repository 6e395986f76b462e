/** The tokens that the lexer makes, whatever they are made from, and when they print
    so that they read back. */
module LexedTokens {
  import opened JacTokens
  import opened JoinTokens
  import opened LooseStrings
  import opened Relex
  import opened Wrappers

  /** The lexer makes this token from some text. */
  ghost predicate Produced(u: Classes, t: Token) {
    exists s: string :: s != "" && Read(u, s).Some? && Read(u, s).value.0 == t
  }

  // ---- Cutting a text after what was read leaves the reading as it was ----

  lemma {:induction false} DigitCut(u: Classes, s: string, n: nat)
    requires DigitRun(u, s) <= n <= |s|
    ensures DigitRun(u, s[..n]) == DigitRun(u, s)
  {
    if s != "" && IsDigit(u, s[0]) {
      DigitCut(u, s[1..], n - 1);
      assert s[..n][1..] == s[1..][..n - 1];
    }
  }

  lemma {:induction false} WordCut(u: Classes, s: string, n: nat)
    requires WordRun(u, s) <= n <= |s|
    ensures WordRun(u, s[..n]) == WordRun(u, s)
  {
    if s != "" && IsWord(u, s[0]) {
      WordCut(u, s[1..], n - 1);
      assert s[..n][1..] == s[1..][..n - 1];
    }
  }

  lemma HeadCut(s: string, n: nat, chars: string)
    requires n <= |s|
    ensures n > 0 ==> (HeadIn(s[..n], chars) <==> HeadIn(s, chars)) && s[..n][1..] == s[1..][..n - 1]
  {
  }

  /** A fraction that was read is still there; what was not a fraction is none as
      long as nothing of it is kept. */
  lemma FractionCut(u: Classes, x: string, n: nat)
    requires FractionLen(u, x) <= n <= |x| && (HeadIn(x, ".") && FractionLen(u, x) == 0 ==> n == 0)
    ensures FractionLen(u, x[..n]) == FractionLen(u, x)
  {
    hide DigitRun;
    HeadCut(x, n, ".");
    if n > 0 && HeadIn(x, ".") {
      if n > 1 {
        HeadCut(x[1..], n - 1, ".");
      }
      DigitCut(u, x[1..], n - 1);
    }
  }

  lemma ExponentCut(u: Classes, y: string, n: nat)
    requires ExponentLen(u, y) <= n <= |y|
    ensures ExponentLen(u, y[..n]) == ExponentLen(u, y)
  {
    hide DigitRun;
    HeadCut(y, n, "eE");
    if n > 0 && HeadIn(y, "eE") {
      var sign := if HeadIn(y[1..], "+-") then 1 else 0;
      if n > 1 {
        HeadCut(y[1..], n - 1, "+-");
      }
      assert y[..n][1 + sign..] == y[1 + sign..][..n - 1 - sign];
      DigitCut(u, y[1 + sign..], n - 1 - sign);
    }
  }

  lemma CutAtPoint(u: Classes, s: string, n: nat)
    requires DecimalLen(u, s) <= n <= |s| && n <= DecimalLen(u, s) + 1
    requires n == DecimalLen(u, s) + 1 ==> s[n - 1] != '.'
    ensures var a := DigitRun(u, s);
            && a + FractionLen(u, s[a..]) <= n
            && (HeadIn(s[a..], ".") && FractionLen(u, s[a..]) == 0 ==> n == a)
  {
    var a := DigitRun(u, s);
    DotNoExponent(u, s[a..]);
    hide DigitRun, FractionLen, ExponentLen;
    assert s[a..] != "" ==> s[a..][0] == s[a];
  }

  lemma DecimalCut(u: Classes, s: string, n: nat)
    requires DecimalLen(u, s) <= n <= |s| && n <= DecimalLen(u, s) + 1
    requires n == DecimalLen(u, s) + 1 ==> s[n - 1] != '.'
    ensures DecimalLen(u, s[..n]) == DecimalLen(u, s)
  {
    hide *;
    CutAtPoint(u, s, n);
    var a := DigitRun(u, s);
    var b := a + FractionLen(u, s[a..]);
    DecimalParts(u, s, a, b);
    DigitCut(u, s, n);
    Suffixes(s, n, a);
    Suffixes(s, n, b);
    FractionCut(u, s[a..], n - a);
    ExponentCut(u, s[b..], n - b);
    DecimalParts(u, s[..n], a, b);
  }

  lemma DecimalParts(u: Classes, s: string, a: nat, b: nat)
    requires a == DigitRun(u, s) && b == a + FractionLen(u, s[a..])
    ensures b <= |s| && DecimalLen(u, s) == b + ExponentLen(u, s[b..])
  {
    hide DigitRun, FractionLen, ExponentLen;
  }

  lemma Suffixes(s: string, n: nat, k: nat)
    requires k <= n <= |s|
    ensures s[..n][k..] == s[k..][..n - k]
  {
  }

  lemma DotNoExponent(u: Classes, x: string)
    ensures HeadIn(x, ".") ==> ExponentLen(u, x) == 0
  {
  }

  lemma NumberCut(u: Classes, s: string)
    requires Sane(u) && StartsNumber(u, s)
    ensures NumberOk(u, s[..NumberLen(u, s)])
  {
    var n := NumberLen(u, s);
    var v, body := s[..n], BodyLen(u, s);
    NumberStarts(u, s);
    assert n > body ==> s[body..][0] == s[body];
    assert v[body..] == s[body..][..n - body];
    assert n == body ==> v[body..] == "";
    BodyCut(u, s, n);
    hide BodyLen, StartsNumber, Sane;
    assert n > body ==> v[body..][0] == s[body];
  }

  lemma NumberStarts(u: Classes, s: string)
    requires Sane(u) && StartsNumber(u, s)
    ensures StartsNumber(u, s[..NumberLen(u, s)])
  {
    ReadAdvancesNumber(u, s);
  }

  lemma ReadAdvancesNumber(u: Classes, s: string)
    requires Sane(u) && StartsNumber(u, s)
    ensures NumberLen(u, s) > 0 && (s[0] == '.' ==> NumberLen(u, s) > 1)
  {
    if s[0] == '.' {
      assert !u.digit('.');
      assert DigitRun(u, s) == 0 && s[0..] == s;
      assert s[1..][0] == s[1] && u.digit(s[1]);
      assert FractionLen(u, s) > 1;
    } else {
      assert DigitRun(u, s) > 0;
    }
  }

  lemma BodyCut(u: Classes, s: string, n: nat)
    requires BodyLen(u, s) <= n <= |s| && n <= BodyLen(u, s) + 1
    requires n == BodyLen(u, s) + 1 ==> s[n - 1] in "jJ"
    requires n > 0 && Sane(u)
    ensures BodyLen(u, s[..n]) == BodyLen(u, s)
  {
    hide WordRun, DecimalLen, Sane;
    RadixCut(s, n);
    if IsRadix(s) {
      assert s[..n][2..] == s[2..][..n - 2];
      WordCut(u, s[2..], n - 2);
    } else {
      DecimalCut(u, s, n);
    }
  }

  lemma RadixCut(s: string, n: nat)
    requires n <= |s|
    ensures IsRadix(s[..n]) ==> IsRadix(s)
    ensures IsRadix(s) && n > 1 ==> IsRadix(s[..n])
  {
    HeadCut(s, n, "0");
    if n > 1 {
      HeadCut(s[1..], n - 1, "xXoObB");
    }
  }

  lemma PunctCut(s: string)
    requires Punct(s).Some?
    ensures var (kind, n) := Punct(s).value; s[..n] != "" && Punct(s[..n]) == Some((kind, n))
  {
    hide Punct1, Punct2, Punct3;
    var n := Punct(s).value.1;
    var v := s[..n];
    assert Take(v, n) == v == Take(s, n);
    assert n < 3 ==> Take(v, 3) == v;
    assert n < 2 ==> Take(v, 2) == v;
    Head1(v);
    assert s == v + s[n..];
  }

  lemma CollapsedStarts(u: Classes, v: string)
    requires Sane(u) && StartsString(v) && |v| > PrefixRun(v) + 1
    ensures StartsString(Collapsed(u, v))
  {
    hide *;
    CollapsedInk(u, v);
    Starts(v);
    var q := PrefixRun(v) + 1;
    var c := Collapsed(u, v);
    assert c == v[..q] + c[q..];
    PrefixCut(v, q);
    PrefixRunStays(v[..q], c[q..]);
    Starts(c);
  }

  /** The value of a string token starts a string, even if it is not closed. */
  lemma ValueStarts(u: Classes, s: string)
    requires Sane(u) && StartsString(s)
    ensures StartsString(StringValue(u, s))
  {
    hide Sane, StartsString, Collapsed, PrefixRun, StringLen, IsTriple;
    LiteralLonger(s);
    CutStarts(s, StringLen(s));
    var v := s[..StringLen(s)];
    OpeningPlain(v);
    if '\n' in v {
      assert v[..|v|] == v;
      CollapsedStarts(u, v);
    }
  }

  lemma LiteralLonger(s: string)
    requires StartsString(s)
    ensures PrefixRun(s) < StringLen(s) <= |s|
  {
    QuoteInside(s);
  }

  /** What the lexer makes: a token as `PrintedTokensReadBack` wants it, a string whose
      value is no closed literal, or a name in backticks that is no name without them. */
  lemma ProducedOk(u: Classes, t: Token)
    requires Sane(u) && Produced(u, t)
    ensures TokenOk(u, t) || Loose(t) || (t.backtick && t.kind == Name && !NameOk(u, t.value))
  {
    var s: string :| s != "" && Read(u, s).Some? && Read(u, s).value.0 == t;
    ReadOk(u, s);
    ReadKinds(u, s);
    hide Read, NameOk, StringOk, Sane, StartsString;
  }

  lemma ReadKinds(u: Classes, s: string)
    requires Sane(u) && s != "" && Read(u, s).Some?
    ensures var t := Read(u, s).value.0;
            (t.backtick ==> t.kind == Name) && (t.kind == String ==> StartsString(t.value))
  {
    hide NumberLen, Punct, StringLen, StringValue, StartsString, WordRun, StartsNumber;
    if StartsString(s) {
      ValueStarts(u, s);
    } else if !StartsNumber(u, s) && s[0] != '`' && !(u.alpha(s[0]) || s[0] == '_') {
      PunctKinds(s);
    }
  }

  lemma ReadOk(u: Classes, s: string)
    requires Sane(u) && s != "" && Read(u, s).Some?
    ensures var t := Read(u, s).value.0;
            (t.kind == String ==> StringOk(t.value)) && (t.backtick ==> NameOk(u, t.value)) ==> TokenOk(u, t)
  {
    hide NumberLen, Punct, StringLen, StringValue, StartsString, WordRun, NameOk, NumberOk, StringOk;
    if StartsString(s) {
    } else if StartsNumber(u, s) {
      NumberCut(u, s);
    } else if s[0] == '`' {
    } else if u.alpha(s[0]) || s[0] == '_' {
      NameCut(u, s);
    } else {
      PunctCut(s);
      PunctKinds(s[..Punct(s).value.1]);
    }
  }

  lemma NameCut(u: Classes, s: string)
    requires Sane(u) && s != "" && !StartsNumber(u, s) && (u.alpha(s[0]) || s[0] == '_')
    ensures NameOk(u, s[..WordRun(u, s)])
  {
    WordCut(u, s, WordRun(u, s));
  }

  lemma PunctKinds(v: string)
    requires Punct(v).Some?
    ensures Punct(v).value.0 !in {Name, Number, String}
  {
  }

  // ---- The law, for every list of tokens that the lexer makes ----

  lemma {:induction false} LexProduces(u: Classes, s: string)
    requires Sane(u)
    ensures Lex(u, s).Some? ==> forall t :: t in Lex(u, s).value ==> Produced(u, t)
    decreases |s|
  {
    var t := Skip(s);
    hide Sane, Skip, Read;
    if t != "" && Read(u, t).Some? {
      ReadAdvances(u, t);
      LexProduces(u, t[Read(u, t).value.1..]);
    }
  }

  /** Every name in backticks is a name without them. */
  predicate BackticksNamed(u: Classes, ts: seq<Token>) {
    forall i :: 0 <= i < |ts| && ts[i].backtick ==> NameOk(u, ts[i].value)
  }

  /** What reads back without a backtick is a name. */
  lemma ReadBackNamed(u: Classes, ts: seq<Token>)
    requires Sane(u) && (forall t :: t in ts ==> Produced(u, t)) && Lex(u, Join(ts)) == Some(Plains(ts))
    ensures BackticksNamed(u, ts)
  {
    LexProduces(u, Join(ts));
    hide Sane, Produced, Lex, Join;
    forall i | 0 <= i < |ts| && ts[i].backtick ensures NameOk(u, ts[i].value) {
      assert ts[i] in ts && Plains(ts)[i] in Plains(ts);
      ProducedOk(u, ts[i]);
      ProducedOk(u, Plains(ts)[i]);
      BacktickName(u, ts[i]);
    }
  }

  lemma BacktickName(u: Classes, t: Token)
    requires Sane(u) && Produced(u, t) && t.backtick
    ensures t.kind == Name
  {
    var s: string :| s != "" && Read(u, s).Some? && Read(u, s).value.0 == t;
    ReadKinds(u, s);
  }

  /** Printed tokens of the lexer read back with the same types and values if and only
      if none of them clashes with what follows it, every name in backticks is a name
      without them, and a string that is not closed, or not on one line without triple
      quotes, stands last and is read at its own value. */
  lemma LexedTokensReadBack(u: Classes, ts: seq<Token>)
    requires Sane(u) && forall t :: t in ts ==> Produced(u, t)
    ensures Lex(u, Join(ts)) == Some(Plains(ts)) <==> ClashFree(u, ts) && BackticksNamed(u, ts) && LooseLast(u, ts)
  {
    hide Lex, Join, Plains, ClashFree, Facts, TokenOk, Sane, Loose, NameOk, Produced, LooseLast;
    if BackticksNamed(u, ts) {
      forall i | 0 <= i < |ts| ensures (TokenOk(u, ts[i]) || Loose(ts[i])) && Facts(u, ts[i]) {
        assert ts[i] in ts;
        ProducedOk(u, ts[i]);
        TokenFacts(u, ts[i]);
      }
      RelexAll(u, ts);
    } else if Lex(u, Join(ts)) == Some(Plains(ts)) {
      ReadBackNamed(u, ts);
    }
  }

  lemma UnclosedShape(u: Classes)
    requires Sane(u)
    ensures StartsString("\"a") && ClosedLen("\"a") == None && StringValue(u, "\"a") == "\"a"
  {
    var v := "\"a";
    assert v[0..] == v && v[1..] == "a" && "a"[1..] == "";
    assert PrefixRun(v) == 0 && StartsString(v) && !IsTriple(v);
    assert CloseLen("a", '"', false) == None;
  }

  /** An unclosed string can read back, if it stands last. */
  lemma UnclosedReadsBack(u: Classes)
    requires Sane(u)
    ensures var t := Token(String, "\"a", false);
            Produced(u, t) && Loose(t) && Lex(u, Join([t])) == Some(Plains([t]))
  {
    var t := Token(String, "\"a", false);
    hide Lex, Join, Plains, Sane, Read, StartsString, ClosedLen, StringValue, StringLen, IsTriple, PrefixRun, Clash;
    UnclosedShape(u);
    ReadsString(u, t.value);
    assert Produced(u, t);
    StringNoClash(u, t);
    LexedTokensReadBack(u, [t]);
  }

  lemma StringNoClash(u: Classes, t: Token)
    ensures ClashFree(u, [t])
  {
    hide DigitRun;
    assert [t][0..] == [t];
  }

  /** A lone backtick makes a name without characters, which prints as nothing. */
  lemma EmptyBacktickIsLost(u: Classes)
    requires Sane(u)
    ensures var t := Token(Name, "", true);
            Produced(u, t) && ClashFree(u, [t]) && Lex(u, Join([t])) != Some(Plains([t]))
  {
    var t := Token(Name, "", true);
    var s := "`";
    assert !StartsString(s) && !StartsNumber(u, s);
    assert s[1..] == "" && s[1..1] == "";
    assert Read(u, s) == Some((t, 1));
    assert Join([t]) == "";
    assert [t][0..] == [t];
  }
}
