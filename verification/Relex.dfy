/** Printed tokens read back as themselves, exactly if no two of them clash. */
module Relex {
  import opened JacTokens
  import opened JoinTokens
  import opened LooseStrings
  import opened Wrappers

  lemma ReadNumber(u: Classes, v: string, w: string)
    requires Sane(u) && NumberOk(u, v) && (w == "" || w[0] in CLOSERS)
    ensures !PointClash(u, v, w) ==> Read(u, v + w) == Some((Token(Number, v, false), |v|))
    ensures PointClash(u, v, w) ==> Read(u, v + w).Some? && Read(u, v + w).value.0 != Token(Number, v, false)
  {
    if w != "" {
      ClosersApart(u, w[0]);
    }
    NumberHead(u, v, w);
    hide DigitRun, BodyLen, PointClash, QUOTES, PREFIXES, SINGLES, OP_CHARS;
    if PointClash(u, v, w) {
      NumberClashes(u, v, w);
    } else {
      NumberStays(u, v, w);
      assert (v + w)[..|v|] == v;
    }
  }

  lemma NumberHead(u: Classes, v: string, w: string)
    requires Sane(u) && StartsNumber(u, v)
    ensures StartsNumber(u, v + w) && !StartsString(v + w) && v != "."
  {
    assert (v + w)[0] == v[0];
    assert v[0] !in QUOTES && v[0] !in PREFIXES;
  }

  predicate IsPunct(t: Token) {
    t.kind != Name && t.kind != Number && t.kind != String
  }

  lemma PunctOf(u: Classes, t: Token)
    requires TokenOk(u, t) && IsPunct(t)
    ensures t.value != "" && Punct(t.value) == Some((t.kind, |t.value|))
  {
  }

  lemma PunctNotOther(u: Classes, v: string, w: string)
    requires Sane(u) && v != "" && Punct(v).Some?
    ensures !StartsString(v + w) && v[0] != '`' && !u.alpha(v[0]) && v[0] != '_'
    ensures StartsNumber(u, v + w) ==> v[0] == '.' && |v + w| > 1 && u.digit((v + w)[1])
  {
    PunctHead(v);
    HeadsApart(v[0]);
    hide Punct, PrefixRun, SINGLES, OP_CHARS, QUOTES, PREFIXES, BLANKS;
    assert (v + w)[0] == v[0];
  }

  lemma ReadPunct(u: Classes, t: Token, w: string)
    requires Sane(u) && TokenOk(u, t) && IsPunct(t) && Harmless(t.value, w)
    requires !(t.value == "." && w != "" && u.digit(w[0]))
    ensures Read(u, t.value + w) == Some((Plain(t), |t.value|))
  {
    hide Punct, Harmless, TokenOk, StartsString, StartsNumber, Sane, IsPunct;
    var v := t.value;
    PunctOf(u, t);
    PunctNotOther(u, v, w);
    PunctStays(v, w);
    DotSecond(u, v, w);
    assert (v + w)[..|v|] == v && (v + w)[0] == v[0];
  }

  lemma DotSecond(u: Classes, v: string, w: string)
    requires Sane(u) && v != "" && Punct(v).Some? && Punct(v).value.1 == |v|
    ensures v[0] == '.' && |v + w| > 1 && u.digit((v + w)[1]) ==> v == "." && w != "" && (v + w)[1] == w[0]
  {
    if v[0] == '.' {
      DotThree(v);
    }
    hide Punct;
    assert |v| == 1 && w != "" ==> (v + w)[1] == w[0];
    assert |v| > 1 ==> (v + w)[1] == v[1];
    assert !u.digit('.');
  }

  lemma DotThree(v: string)
    requires v != "" && Punct(v).Some? && Punct(v).value.1 == |v| && v[0] == '.'
    ensures v == "." || v == "..."
  {
    hide Punct1, Punct2, Punct3;
    if |v| == 2 {
      assert Take(v, 2) == v;
      Head2(v);
    } else if |v| == 3 {
      assert Take(v, 3) == v;
      Head3(v);
    }
  }

  // ---- What each kind begins with ----

  predicate Solid(v: string) {
    v != "" && v[0] !in BLANKS && v[0] != '#'
  }

  lemma NameHead(u: Classes, v: string)
    requires Sane(u) && NameOk(u, v)
    ensures Solid(v) && v[0] != '.' && v[0] != '?' && v !in NO_SPACE_AFTER && !u.digit(v[0])
  {
    WordRunStays(u, v, "");
    assert v[0] in v;
    hide NO_SPACE_AFTER, WordRun;
    SpaceAfterHeads(v);
    WordNot(u, v[0]);
  }

  lemma WordNot(u: Classes, c: char)
    requires Sane(u) && IsWord(u, c)
    ensures c !in BLANKS && c != '#' && c !in ".([~?"
  {
    assert c in ".([~?" ==> c in SINGLES || c in OP_CHARS;
    assert '#' in OTHERS && '_' !in BLANKS;
  }

  lemma NumberFirst(u: Classes, v: string)
    requires Sane(u) && NumberOk(u, v)
    ensures Solid(v) && v[0] != '?' && v !in NO_SPACE_AFTER && (u.digit(v[0]) <==> v[0] != '.')
    ensures v[0] == '.' ==> |v| > 1 && v[1] != '.'
  {
    hide NO_SPACE_AFTER, NumberLen;
    SpaceAfterHeads(v);
    assert !u.digit('.');
    if u.digit(v[0]) {
      WordNot(u, v[0]);
    }
  }

  lemma StringFirst(u: Classes, v: string)
    requires Sane(u) && StartsString(v)
    ensures Solid(v) && v[0] != '.' && v[0] != '?' && v !in NO_SPACE_AFTER && !u.digit(v[0])
  {
    assert v[0] in QUOTES || v[0] in PREFIXES;
    hide NO_SPACE_AFTER, ClosedLen, PrefixRun;
    SpaceAfterHeads(v);
    MarkNot(v[0]);
  }

  lemma MarkNot(c: char)
    requires c in QUOTES || c in PREFIXES
    ensures c !in BLANKS && c != '#' && c !in ".([~?"
  {
  }

  lemma PunctFirst(u: Classes, t: Token)
    requires Sane(u) && TokenOk(u, t) && IsPunct(t)
    ensures Solid(t.value) && !u.digit(t.value[0])
    ensures t.value[0] == '.' <==> t.kind == Dot || t.kind == Ellipsis
    ensures t.kind == Dot <==> t.value == "."
    ensures t.kind == Ellipsis <==> t.value == "..."
  {
    var v := t.value;
    PunctOf(u, t);
    PunctHead(v);
    HeadsApart(v[0]);
    DotKinds(v, t.kind);
    hide Punct, TokenOk, IsPunct;
  }

  lemma DotKinds(v: string, kind: TT)
    requires v != "" && Punct(v) == Some((kind, |v|))
    ensures v[0] == '.' <==> kind == Dot || kind == Ellipsis
    ensures kind == Dot <==> v == "."
    ensures kind == Ellipsis <==> v == "..."
  {
    if v[0] == '.' {
      DotThree(v);
    }
    hide Punct1, Punct2, Punct3;
    assert Take(v, |v|) == v;
    Single(v);
    Doubles(v);
  }

  lemma Single(v: string)
    ensures |v| == 1 && Punct1(v).Some? ==> (Punct1(v).value == Dot <==> v[0] == '.') && Punct1(v).value != Ellipsis
  {
  }

  lemma Doubles(v: string)
    ensures Punct2(v).Some? ==> Punct2(v).value != Dot && Punct2(v).value != Ellipsis
    ensures Punct3(v).Some? ==> Punct3(v).value != Dot && (Punct3(v).value == Ellipsis <==> v == "...")
  {
  }

  /** What the proofs below need to know of a token. */
  ghost predicate Facts(u: Classes, t: Token) {
    var v := t.value;
    && Solid(v)
    && (t.kind == Dot <==> v == ".") && (t.kind == Ellipsis <==> v == "...")
    && (v[0] == '.' ==> t.kind == Dot || t.kind == Ellipsis || t.kind == Number)
    && (u.digit(v[0]) ==> t.kind == Number)
    && (t.kind == Number ==> (u.digit(v[0]) <==> v[0] != '.') && (v[0] == '.' ==> |v| > 1 && v[1] != '.'))
    && (v in NO_SPACE_AFTER || v == "?" ==> IsPunct(t))
  }

  lemma TokenFacts(u: Classes, t: Token)
    requires Sane(u) && (TokenOk(u, t) || Loose(t))
    ensures Facts(u, t)
  {
    hide NO_SPACE_AFTER;
    match t.kind
    case Name => NameHead(u, t.value);
    case Number => NumberFirst(u, t.value);
    case String => StringFirst(u, t.value);
    case _ => PunctFirst(u, t);
  }

  // ---- What is printed after a token ----

  lemma TailIs(ts: seq<Token>)
    requires |ts| > 1
    ensures Tail(ts) == (if Glued(ts[0], ts[1]) then "" else " ") + ts[1].value + Tail(ts[1..])
  {
    hide Glued;
  }

  lemma GluedTo(prev: Token, cur: Token)
    requires Glued(prev, cur) && prev.value !in NO_SPACE_AFTER
    ensures cur.value in [".", ")", "]", ",", ":", ";", "(", "["]
  {
    hide NO_SPACE_AFTER;
  }

  lemma GluedHead(v: string)
    requires v in [".", ")", "]", ",", ":", ";", "(", "["]
    ensures |v| == 1 && v[0] in CLOSERS && (v[0] == '.' <==> v == ".")
  {
  }

  lemma DotGlues(prev: Token, cur: Token)
    ensures cur.value == "." ==> Glued(prev, cur)
    ensures prev.value == "." ==> Glued(prev, cur)
  {
  }

  /** Without a blank after it, a token is followed by nothing, a blank or a closer. */
  lemma TailHead(ts: seq<Token>)
    requires ts != [] && ts[0].value !in NO_SPACE_AFTER && (|ts| > 1 ==> ts[1].value != "")
    ensures Tail(ts) == "" || Tail(ts)[0] in CLOSERS
    ensures HeadIn(Tail(ts), ".") <==> |ts| > 1 && ts[1].value == "."
  {
    if |ts| > 1 {
      TailIs(ts);
      DotGlues(ts[0], ts[1]);
      if Glued(ts[0], ts[1]) {
        GluedTo(ts[0], ts[1]);
        GluedHead(ts[1].value);
      }
      hide Glued, NO_SPACE_AFTER, NO_SPACE_BEFORE;
      assert Glued(ts[0], ts[1]) ==> Tail(ts)[0] == ts[1].value[0];
      assert !Glued(ts[0], ts[1]) ==> Tail(ts)[0] == ' ';
    }
  }

  predicate DotNext(ts: seq<Token>) {
    |ts| > 2 && HeadIn(ts[2].value, ".")
  }

  /** After a printed point, another one follows exactly if the next token starts with it. */
  lemma TailAfterDot(ts: seq<Token>)
    requires |ts| > 1 && ts[1].value == "." && forall i :: 0 <= i < |ts| ==> ts[i].value != ""
    ensures HeadIn(Tail(ts), ".") && (HeadIn(Tail(ts)[1..], ".") <==> DotNext(ts))
  {
    hide Glued;
    TailIs(ts);
    DotGlues(ts[0], ts[1]);
    assert Tail(ts) == "." + Tail(ts[1..]);
    assert Tail(ts)[1..] == Tail(ts[1..]);
    if |ts| > 2 {
      TailIs(ts[1..]);
      DotGlues(ts[1], ts[2]);
    }
  }

  // ---- The first token is read back exactly if it does not clash ----

  ghost predicate AllOk(u: Classes, ts: seq<Token>) {
    forall i :: 0 <= i < |ts| ==> (TokenOk(u, ts[i]) || Loose(ts[i])) && Facts(u, ts[i])
  }

  lemma FirstValues(u: Classes, ts: seq<Token>)
    requires AllOk(u, ts) && ts != []
    ensures (TokenOk(u, ts[0]) || Loose(ts[0])) && Facts(u, ts[0]) && Join(ts) == ts[0].value + Tail(ts) && Join(ts) != ""
    ensures forall i :: 0 <= i < |ts| ==> ts[i].value != ""
    ensures |ts| > 1 ==> Facts(u, ts[1])
    ensures |ts| > 2 ==> Facts(u, ts[2])
  {
    hide TokenOk;
  }

  /** A point clashes with the number before it as the predicate on tokens says. */
  lemma PointClashes(u: Classes, ts: seq<Token>)
    requires AllOk(u, ts) && ts != [] && ts[0].kind == Number
    ensures ts[0].value != "" && (PointClash(u, ts[0].value, Tail(ts)) <==> Clash(u, ts))
    ensures Tail(ts) == "" || Tail(ts)[0] in CLOSERS
  {
    FirstValues(u, ts);
    hide DigitRun, TokenOk, AllOk, Glued, NO_SPACE_AFTER, CLOSERS;
    TailHead(ts);
    if |ts| > 1 && ts[1].value == "." {
      TailAfterDot(ts);
    }
  }

  lemma NumberBack(u: Classes, ts: seq<Token>)
    requires Sane(u) && AllOk(u, ts) && ts != [] && ts[0].kind == Number
    ensures Join(ts) != ""
    ensures !Clash(u, ts) ==> Read(u, Join(ts)) == Some((Plain(ts[0]), |ts[0].value|))
    ensures Clash(u, ts) ==> Read(u, Join(ts)).Some? && Read(u, Join(ts)).value.0 != Plain(ts[0])
  {
    FirstValues(u, ts);
    PointClashes(u, ts);
    hide Sane, NumberOk, Read, CLOSERS, Clash, PointClash, Facts, AllOk;
    ReadNumber(u, ts[0].value, Tail(ts));
  }

  lemma WordBack(u: Classes, ts: seq<Token>)
    requires Sane(u) && AllOk(u, ts) && ts != [] && (ts[0].kind == Name || ts[0].kind == String) && TokenOk(u, ts[0])
    ensures Join(ts) != ""
    ensures !Clash(u, ts) && Read(u, Join(ts)) == Some((Plain(ts[0]), |ts[0].value|))
  {
    FirstValues(u, ts);
    hide Sane, StringOk, NameOk, Read, AllOk, NO_SPACE_AFTER, DigitRun;
    var v, w := ts[0].value, Tail(ts);
    TailHead(ts);
    if w != "" {
      ClosersApart(u, w[0]);
    }
    hide CLOSERS;
    if ts[0].kind == Name {
      ReadName(u, v, w);
    } else {
      ReadString(u, v, w);
    }
  }

  /** What follows punctuation does it no harm unless the tokens clash. */
  lemma PunctContext(u: Classes, ts: seq<Token>)
    requires Sane(u) && AllOk(u, ts) && ts != [] && IsPunct(ts[0])
    ensures !Clash(u, ts) ==> Harmless(ts[0].value, Tail(ts))
    ensures !Clash(u, ts) ==> !(ts[0].value == "." && Tail(ts) != "" && u.digit(Tail(ts)[0]))
    ensures Clash(u, ts) ==>
      || (ts[0].value == "?" && HeadIn(Tail(ts), "."))
      || (ts[0].value == "." && HeadIn(Tail(ts), ".") && HeadIn(Tail(ts)[1..], "."))
      || (ts[0].value == "." && Tail(ts) != "" && u.digit(Tail(ts)[0]))
  {
    FirstValues(u, ts);
    if ts[0].value == "." {
      AfterDot(u, ts);
      hide NO_SPACE_AFTER;
      assert "." in NO_SPACE_AFTER by { DotSpaces(); }
    } else {
      AfterOther(u, ts);
    }
  }

  lemma DotSpaces()
    ensures "." in NO_SPACE_AFTER && "?" !in NO_SPACE_AFTER
  {
    assert NO_SPACE_AFTER[0] == ".";
  }

  lemma AfterDot(u: Classes, ts: seq<Token>)
    requires Sane(u) && AllOk(u, ts) && ts != [] && ts[0].value == "."
    ensures Clash(u, ts) <==>
      || (HeadIn(Tail(ts), ".") && HeadIn(Tail(ts)[1..], "."))
      || (Tail(ts) != "" && u.digit(Tail(ts)[0]))
  {
    FirstValues(u, ts);
    if |ts| > 1 {
      TailIs(ts);
      DotGlues(ts[0], ts[1]);
      var v := ts[1].value;
      assert Tail(ts) == v + Tail(ts[1..]) && Tail(ts)[0] == v[0];
      if v == "." {
        TailAfterDot(ts);
      } else if v[0] == '.' {
        assert |v| > 1 ==> Tail(ts)[1..][0] == v[1];
      }
    }
  }

  lemma AfterOther(u: Classes, ts: seq<Token>)
    requires Sane(u) && AllOk(u, ts) && ts != [] && IsPunct(ts[0]) && ts[0].value != "."
    ensures !Clash(u, ts) ==> Harmless(ts[0].value, Tail(ts))
    ensures Clash(u, ts) ==> ts[0].value == "?" && HeadIn(Tail(ts), ".")
  {
    FirstValues(u, ts);
    hide AllOk, TokenOk, NO_SPACE_AFTER, Glued, Sane, DigitRun;
    var v, w := ts[0].value, Tail(ts);
    DotSpaces();
    SpaceAfterHeads(v);
    if v !in NO_SPACE_AFTER {
      TailHead(ts);
      if w != "" {
        CloserNot(w[0]);
      }
    }
    hide CLOSERS;
  }

  lemma CloserNot(c: char)
    requires c in CLOSERS
    ensures c !in "=>" && c !in "=*/<>+"
  {
  }

  lemma PunctBack(u: Classes, ts: seq<Token>)
    requires Sane(u) && AllOk(u, ts) && ts != [] && IsPunct(ts[0])
    ensures Join(ts) != ""
    ensures !Clash(u, ts) ==> Read(u, Join(ts)) == Some((Plain(ts[0]), |ts[0].value|))
    ensures Clash(u, ts) ==> Read(u, Join(ts)).Some? ==> Read(u, Join(ts)).value.0 != Plain(ts[0])
  {
    FirstValues(u, ts);
    PunctContext(u, ts);
    hide AllOk, Facts, TokenOk, Clash, Read, Sane;
    var v, w := ts[0].value, Tail(ts);
    if Clash(u, ts) {
      if v == "?" && HeadIn(w, ".") {
        ReadsNullSafe(u, w);
      } else if HeadIn(w, ".") && HeadIn(w[1..], ".") {
        ReadsEllipsis(u, w);
      } else {
        ReadsPointNumber(u, w);
      }
    } else {
      ReadPunct(u, ts[0], w);
    }
  }

  lemma ReadsNullSafe(u: Classes, w: string)
    requires Sane(u) && HeadIn(w, ".")
    ensures Read(u, "?" + w).Some? ==> Read(u, "?" + w).value.0.value != "?"
  {
    var s := "?" + w;
    PunctSees("?");
    PunctNotOther(u, "?", w);
    hide Sane, StartsString, StartsNumber, Punct1, Punct3;
    assert Take(s, 2) == "?.";
    assert s[0] == '?';
  }

  lemma PunctSees(v: string)
    requires v == "?" || v == "."
    ensures Punct(v).Some? && Punct(v).value.1 == 1
  {
    assert Take(v, 3) == v && Take(v, 2) == v;
  }

  lemma ReadsEllipsis(u: Classes, w: string)
    requires Sane(u) && HeadIn(w, ".") && HeadIn(w[1..], ".")
    ensures Read(u, "." + w).Some? ==> Read(u, "." + w).value.0.value != "."
  {
    var s := "." + w;
    PunctSees(".");
    PunctNotOther(u, ".", w);
    assert !u.digit('.');
    hide Sane, StartsString, StartsNumber, Punct1, Punct2;
    assert s[0] == '.' && s[1] == '.';
    assert Take(s, 3) == "...";
  }

  lemma ReadsPointNumber(u: Classes, w: string)
    requires Sane(u) && w != "" && u.digit(w[0])
    ensures Read(u, "." + w).Some? ==> Read(u, "." + w).value.0.kind != Dot
  {
    var s := "." + w;
    PunctSees(".");
    PunctNotOther(u, ".", w);
    hide Sane, StartsString, NumberLen, Punct;
    assert s[0] == '.' && s[1] == w[0];
  }

  lemma FirstBack(u: Classes, ts: seq<Token>)
    requires Sane(u) && AllOk(u, ts) && ts != [] && TokenOk(u, ts[0])
    ensures Join(ts) != ""
    ensures !Clash(u, ts) ==> Read(u, Join(ts)) == Some((Plain(ts[0]), |ts[0].value|))
    ensures Clash(u, ts) ==> Read(u, Join(ts)).Some? ==> Read(u, Join(ts)).value.0 != Plain(ts[0])
  {
    hide Sane, AllOk, Join, Clash, Read;
    if ts[0].kind == Number {
      NumberBack(u, ts);
    } else if ts[0].kind == Name || ts[0].kind == String {
      WordBack(u, ts);
    } else {
      PunctBack(u, ts);
    }
  }

  // ---- All of them ----

  lemma SkipSolid(s: string)
    requires Solid(s)
    ensures Skip(s) == s && Skip(" " + s) == s
  {
    assert (" " + s)[1..] == s;
  }

  lemma LexOne(u: Classes, s: string, token: Token, n: nat)
    requires Sane(u) && s != "" && Skip(s) == s && Read(u, s) == Some((token, n))
    ensures n <= |s|
    ensures Lex(u, s) == match Lex(u, s[n..]) case None => None case Some(rest) => Some([token] + rest)
  {
    hide Sane, Read, Skip;
  }

  lemma LexNone(u: Classes, s: string)
    requires Sane(u)
    ensures s != "" && Skip(s) == s && Read(u, s).None? ==> Lex(u, s) == None
    ensures s == "" ==> Lex(u, s) == Some([])
  {
    hide Sane, Read;
  }

  lemma LexBlank(u: Classes, s: string)
    requires Sane(u) && Solid(s)
    ensures Lex(u, " " + s) == Lex(u, s)
  {
    SkipSolid(s);
    hide Sane, Read, Skip;
  }

  lemma JoinSolid(u: Classes, ts: seq<Token>)
    requires AllOk(u, ts) && ts != []
    ensures Solid(Join(ts))
  {
    FirstValues(u, ts);
    hide AllOk, BLANKS, TokenOk;
    assert Join(ts)[0] == ts[0].value[0];
  }

  /** What is printed after the first token reads as the other tokens do. */
  lemma LexTail(u: Classes, ts: seq<Token>)
    requires Sane(u) && AllOk(u, ts) && ts != []
    ensures Lex(u, Tail(ts)) == Lex(u, Join(ts[1..]))
  {
    if |ts| > 1 {
      assert AllOk(u, ts[1..]);
      JoinSolid(u, ts[1..]);
      LexBlank(u, Join(ts[1..]));
      hide Sane, AllOk, Lex, Glued, Join, Solid;
      assert Glued(ts[0], ts[1]) ==> Tail(ts) == Join(ts[1..]);
    }
  }

  predicate ClashFree(u: Classes, ts: seq<Token>) {
    forall k :: 0 <= k < |ts| ==> !Clash(u, ts[k..])
  }

  lemma ClashFreeStep(u: Classes, ts: seq<Token>)
    requires ts != []
    ensures ClashFree(u, ts) <==> !Clash(u, ts) && ClashFree(u, ts[1..])
  {
    hide Clash;
    assert ts[0..] == ts;
    assert forall k :: 0 <= k < |ts[1..]| ==> ts[1..][k..] == ts[k + 1..];
    assert forall k :: 0 < k < |ts| ==> ts[1..][k - 1..] == ts[k..];
  }

  lemma PlainsStep(ts: seq<Token>)
    requires ts != []
    ensures Plains(ts) == [Plain(ts[0])] + Plains(ts[1..])
  {
  }

  lemma LexStep(u: Classes, ts: seq<Token>)
    requires Sane(u) && AllOk(u, ts) && ts != [] && TokenOk(u, ts[0])
    ensures Lex(u, Join(ts)) == Some(Plains(ts)) <==> !Clash(u, ts) && Lex(u, Join(ts[1..])) == Some(Plains(ts[1..]))
  {
    hide Sane, AllOk, Clash, Lex, Read, Skip, Solid, Plains, Plain, Facts, TokenOk;
    FirstBack(u, ts);
    FirstValues(u, ts);
    JoinSolid(u, ts);
    SkipSolid(Join(ts));
    LexTail(u, ts);
    PlainsStep(ts);
    if Read(u, Join(ts)).None? {
      LexNone(u, Join(ts));
    } else {
      var (token, n) := Read(u, Join(ts)).value;
      LexOne(u, Join(ts), token, n);
      assert !Clash(u, ts) ==> Join(ts)[n..] == Tail(ts);
      assert Plains(ts)[0] == Plain(ts[0]) && Plains(ts)[1..] == Plains(ts[1..]);
      if Lex(u, Join(ts)[n..]).Some? {
        var rest := Lex(u, Join(ts)[n..]).value;
        assert ([token] + rest)[0] == token && ([token] + rest)[1..] == rest;
      }
    }
  }

  // ---- Loose strings ----

  /** A loose string stands last, and is what is read at its own value. */
  predicate LooseLast(u: Classes, ts: seq<Token>) {
    forall i :: 0 <= i < |ts| && Loose(ts[i]) ==> i == |ts| - 1 && StringValue(u, ts[i].value) == ts[i].value
  }

  lemma LooseLastStep(u: Classes, ts: seq<Token>)
    requires |ts| > 1
    ensures LooseLast(u, ts) <==> !Loose(ts[0]) && LooseLast(u, ts[1..])
  {
    hide Loose, StringValue;
    var rest := ts[1..];
    assert forall i :: 0 <= i < |rest| ==> rest[i] == ts[i + 1];
    assert forall i :: 0 < i < |ts| ==> ts[i] == rest[i - 1];
  }

  lemma LooseFacts(t: Token)
    requires Loose(t)
    ensures t.kind == String && StartsString(t.value) && !StringOk(t.value)
  {
  }

  lemma ReadsString(u: Classes, s: string)
    requires s != "" && StartsString(s)
    ensures Read(u, s) == Some((Token(String, StringValue(u, s), false), StringLen(s)))
  {
    hide StringValue, StringLen, StartsString;
  }

  lemma LooseContext(u: Classes, ts: seq<Token>)
    requires Sane(u) && AllOk(u, ts) && |ts| > 1 && Loose(ts[0])
    ensures var (v, w) := (ts[0].value, Tail(ts));
            && Join(ts) == v + w && w != "" && w[0] !in QUOTES && StartsString(v) && !StringOk(v)
    ensures Solid(Join(ts)) && ts[0].kind == String
  {
    hide *;
    LooseNext(u, ts);
    FirstValues(u, ts);
    LooseFacts(ts[0]);
    JoinSolid(u, ts);
    TailHead(ts);
    TailIs(ts);
    ClosersApart(u, Tail(ts)[0]);
  }

  lemma LooseNext(u: Classes, ts: seq<Token>)
    requires AllOk(u, ts) && |ts| > 1 && Loose(ts[0])
    ensures ts[0].value !in NO_SPACE_AFTER && ts[1].value != ""
  {
    hide NO_SPACE_AFTER, TokenOk;
    assert Facts(u, ts[0]) && Facts(u, ts[1]);
  }

  lemma SolidText(s: string)
    requires Solid(s)
    ensures s != ""
  {
  }

  lemma TextOfOne(u: Classes, s: string)
    requires Sane(u) && StartsString(s) && Solid(s)
    ensures StringLen(s) == |s| ==> Lex(u, s) == Some([Token(String, StringValue(u, s), false)])
    ensures Lex(u, s).Some? ==> Lex(u, s).value != [] && Lex(u, s).value[0] == Token(String, StringValue(u, s), false)
  {
    hide *;
    SkipSolid(s);
    SolidText(s);
    ReadsString(u, s);
    var token := Token(String, StringValue(u, s), false);
    LexOne(u, s, token, StringLen(s));
    LexNone(u, "");
    assert s[|s|..] == "" && [token] + [] == [token];
  }

  /** What is not last does not read back if it is loose: either another value is read,
      or everything is. */
  lemma LooseFirst(u: Classes, ts: seq<Token>)
    requires Sane(u) && AllOk(u, ts) && |ts| > 1 && Loose(ts[0])
    ensures Lex(u, Join(ts)) != Some(Plains(ts))
  {
    LooseContext(u, ts);
    var v, w := ts[0].value, Tail(ts);
    hide Sane, AllOk, Loose, StringOk, StartsString, Tail, Join, Solid, StringValue, ClosedLen, Lex;
    LooseReads(u, v, w);
    TextOfOne(u, v + w);
  }

  /** The last one reads back exactly if it is read at its own value. */
  lemma LooseAlone(u: Classes, t: Token)
    requires Sane(u) && AllOk(u, [t]) && Loose(t)
    ensures Lex(u, Join([t])) == Some(Plains([t])) <==> StringValue(u, t.value) == t.value
  {
    LooseFacts(t);
    JoinSolid(u, [t]);
    var v := t.value;
    assert Join([t]) == v;
    assert Plains([t]) == [Token(String, v, false)];
    hide Sane, AllOk, Loose, StringOk, StartsString, Join, Solid, StringValue, StringLen, Lex, Plains;
    TextOfOne(u, v);
    if StringValue(u, v) == v {
      LengthOfOwn(u, v);
    }
  }

  /** A literal is no shorter than its value. */
  lemma LengthOfOwn(u: Classes, v: string)
    requires Sane(u) && StartsString(v) && StringValue(u, v) == v
    ensures StringLen(v) == |v|
  {
    var n := StringLen(v);
    if !IsTriple(v) && '\n' in v[..n] && n > PrefixRun(v) + 1 {
      CutStarts(v, n);
      CollapsedInk(u, v[..n]);
    } else if !IsTriple(v) && '\n' in v[..n] {
      OpeningPlain(v);
      ShortLiteral(v);
    }
  }

  lemma ShortLiteral(v: string)
    requires StartsString(v) && StringLen(v) <= PrefixRun(v) + 1
    ensures StringLen(v) == |v|
  {
    if ClosedLen(v).Some? {
      ClosesWithQuote(v);
    }
  }

  lemma {:induction false} RelexAll(u: Classes, ts: seq<Token>)
    requires Sane(u) && AllOk(u, ts)
    ensures Lex(u, Join(ts)) == Some(Plains(ts)) <==> ClashFree(u, ts) && LooseLast(u, ts)
  {
    if ts == [] {
      LexNone(u, "");
    } else if Loose(ts[0]) {
      assert !Clash(u, ts);
      if |ts| > 1 {
        LooseFirst(u, ts);
      } else {
        assert ts == [ts[0]];
        LooseAlone(u, ts[0]);
        ClashFreeStep(u, ts);
      }
    } else {
      assert AllOk(u, ts[1..]);
      RelexAll(u, ts[1..]);
      hide Sane, AllOk, Clash, Lex, ClashFree, Plains, Join, Loose, TokenOk;
      LexStep(u, ts);
      ClashFreeStep(u, ts);
      if |ts| > 1 {
        LooseLastStep(u, ts);
      }
    }
  }

  lemma ProperNotLoose(u: Classes, t: Token)
    requires TokenOk(u, t)
    ensures !Loose(t)
  {
  }

  /** Printed tokens read back with the same types and values exactly if none of
      them clashes with what follows it. */
  lemma PrintedTokensReadBack(u: Classes, ts: seq<Token>)
    requires Sane(u) && forall t :: t in ts ==> TokenOk(u, t)
    ensures Lex(u, Join(ts)) == Some(Plains(ts)) <==> ClashFree(u, ts)
  {
    hide Lex, Join, Plains, ClashFree, Facts, TokenOk, Sane, Loose;
    forall i | 0 <= i < |ts| ensures TokenOk(u, ts[i]) && Facts(u, ts[i]) && !Loose(ts[i]) {
      assert ts[i] in ts;
      TokenFacts(u, ts[i]);
      ProperNotLoose(u, ts[i]);
    }
    RelexAll(u, ts);
  }
}
