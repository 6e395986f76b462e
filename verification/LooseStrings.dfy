/** String tokens whose value is no closed literal: what becomes of them when they
    are printed and read again. */
module LooseStrings {
  import opened JacTokens
  import opened JoinTokens
  import opened Wrappers

  /** A string token that is not closed, or broken over lines without triple quotes. */
  predicate Loose(t: Token) {
    t.kind == String && StartsString(t.value) && !StringOk(t.value)
  }

  // ---- Collapsing keeps everything but blanks ----

  /** The characters that are no blanks to the host language. */
  ghost function Ink(u: Classes, s: string): nat {
    if s == "" then 0 else Ink(u, s[1..]) + if u.space(s[0]) then 0 else 1
  }

  lemma {:induction false} InkConcat(u: Classes, a: string, b: string)
    ensures Ink(u, a + b) == Ink(u, a) + Ink(u, b)
  {
    if a == "" {
      assert a + b == b;
    } else {
      assert (a + b)[1..] == a[1..] + b;
      InkConcat(u, a[1..], b);
    }
  }

  lemma {:induction false} FirstWordInk(u: Classes, s: string)
    ensures s == s[..FirstWord(u, s)] + s[FirstWord(u, s)..]
    ensures forall c :: c in s[..FirstWord(u, s)] ==> !u.space(c)
    ensures s != "" && !u.space(s[0]) ==> FirstWord(u, s) > 0
    ensures FirstWord(u, s) < |s| ==> u.space(s[FirstWord(u, s)])
  {
    if s != "" && !u.space(s[0]) {
      FirstWordInk(u, s[1..]);
      assert s[..FirstWord(u, s)] == [s[0]] + s[1..][..FirstWord(u, s[1..])];
    }
  }

  /** Splitting into words and joining them by blanks loses no ink and no length is
      gained; what is left of line breaks is nothing. */
  lemma {:induction false} WordsInk(u: Classes, s: string)
    requires Sane(u)
    ensures Ink(u, Spaced(Words(u, s))) == Ink(u, s)
    ensures '\n' !in Spaced(Words(u, s))
    ensures |Spaced(Words(u, s))| <= |s|
    decreases |s|
  {
    assert u.space(' ') && u.space('\n');
    hide Sane;
    if s == "" {
    } else if u.space(s[0]) {
      WordsInk(u, s[1..]);
    } else {
      var n := FirstWord(u, s);
      FirstWordInk(u, s);
      WordsInk(u, s[n..]);
      InkConcat(u, s[..n], s[n..]);
      var rest := Words(u, s[n..]);
      assert Words(u, s) == [s[..n]] + rest && ([s[..n]] + rest)[1..] == rest;
      if rest != [] {
        InkConcat(u, s[..n], " " + Spaced(rest));
        assert Ink(u, " " + Spaced(rest)) == Ink(u, Spaced(rest)) by {
          assert (" " + Spaced(rest))[1..] == Spaced(rest);
        }
        assert Spaced(Words(u, s)) == s[..n] + (" " + Spaced(rest));
        SpacedShorter(u, s[n..]);
      } else {
        assert Spaced(Words(u, s)) == s[..n];
        assert Ink(u, s[n..]) == 0 by {
          assert Ink(u, Spaced(rest)) == 0;
        }
      }
    }
  }

  /** After a word comes a blank, so the joined words are shorter by it. */
  lemma SpacedShorter(u: Classes, s: string)
    requires Sane(u) && (s == "" || u.space(s[0]))
    ensures Words(u, s) != [] ==> |Spaced(Words(u, s))| < |s|
    decreases |s|
  {
    if s != "" {
      WordsInk(u, s[1..]);
    }
  }

  /** A collapsed literal: the same ink, no line break before its last character, and
      no greater length. */
  lemma CollapsedInk(u: Classes, v: string)
    requires Sane(u) && StartsString(v) && |v| > PrefixRun(v) + 1
    ensures Ink(u, Collapsed(u, v)) == Ink(u, v) && |Collapsed(u, v)| <= |v|
    ensures v[|v| - 1] != '\n' ==> '\n' !in Collapsed(u, v)
    ensures |Collapsed(u, v)| > PrefixRun(v) + 1 && Collapsed(u, v)[..PrefixRun(v) + 1] == v[..PrefixRun(v) + 1]
  {
    OpeningPlain(v);
    var q := PrefixRun(v) + 1;
    var inner, last := v[q..|v| - 1], [v[|v| - 1]];
    WordsInk(u, inner);
    hide Sane, QUOTES, PREFIXES, PrefixRun, Ink, Words, Spaced, StartsString;
    assert v == v[..q] + inner + last;
    assert Collapsed(u, v) == v[..q] + Spaced(Words(u, inner)) + last;
    InkOfThree(u, v[..q], inner, last);
    InkOfThree(u, v[..q], Spaced(Words(u, inner)), last);
  }

  lemma InkOfThree(u: Classes, a: string, b: string, c: string)
    ensures Ink(u, a + b + c) == Ink(u, a) + Ink(u, b) + Ink(u, c)
  {
    InkConcat(u, a + b, c);
    InkConcat(u, a, b);
  }

  lemma {:induction false} OpeningPlain(v: string)
    requires StartsString(v)
    ensures PrefixRun(v) < |v| && v[PrefixRun(v)] in QUOTES && '\n' !in v[..PrefixRun(v) + 1]
  {
    QuoteInside(v);
    PrefixPlain(v);
    assert v[..PrefixRun(v) + 1] == v[..PrefixRun(v)] + [v[PrefixRun(v)]];
  }

  lemma {:induction false} PrefixPlain(v: string)
    ensures '\n' !in v[..PrefixRun(v)]
  {
    if v != "" && v[0] in PREFIXES {
      PrefixPlain(v[1..]);
      assert v[..PrefixRun(v)] == [v[0]] + v[1..][..PrefixRun(v[1..])];
    }
  }

  // ---- Closing ----

  lemma {:induction false} CloseEnds(s: string, q: char, triple: bool)
    requires CloseLen(s, q, triple).Some?
    ensures s[CloseLen(s, q, triple).value - 1] == q
    decreases |s|
  {
    if s[0] == '\\' {
      CloseEnds(s[2..], q, triple);
    } else if (triple || s[0] != q) && !(triple && |s| > 2 && s[0] == q && s[1] == q && s[2] == q) {
      CloseEnds(s[1..], q, triple);
    }
  }

  /** Where a body closes does not depend on what follows. */
  lemma {:induction false} CloseCut(a: string, q: char, triple: bool, w: string)
    requires CloseLen(a + w, q, triple).Some? && CloseLen(a + w, q, triple).value <= |a|
    ensures CloseLen(a, q, triple) == CloseLen(a + w, q, triple)
    decreases |a|
  {
    var s := a + w;
    if s[0] == '\\' {
      assert |a| >= 2 && s[2..] == a[2..] + w;
      CloseCut(a[2..], q, triple, w);
    } else if (triple || s[0] != q) && !(triple && |s| > 2 && s[0] == q && s[1] == q && s[2] == q) {
      assert |a| >= 1 && s[1..] == a[1..] + w;
      CloseCut(a[1..], q, triple, w);
    }
  }

  /** What is read at a loose value that more text follows is unclosed, or is another
      value. */
  lemma LooseReads(u: Classes, v: string, w: string)
    requires Sane(u) && StartsString(v) && !StringOk(v) && w != "" && w[0] !in QUOTES
    ensures StartsString(v + w) && (StringValue(u, v + w) != v || ClosedLen(v + w).None?)
  {
    var s := v + w;
    SameOpening(v, w);
    if ClosedLen(s).Some? && StringValue(u, s) == v {
      hide QUOTES, PREFIXES, PrefixRun, CloseLen, Sane, StartsString, IsTriple, StringOk, Collapsed;
      ClosesWithQuote(s);
      LiteralStarts(s);
      if !IsTriple(s) && '\n' in s[..ClosedLen(s).value] {
        CollapsedDiffers(u, v, s[..ClosedLen(s).value], w);
      } else {
        ClosedAlone(v, w);
      }
      assert false;
    }
  }

  /** A literal that ends where the value does makes the value a closed literal. */
  lemma ClosedAlone(v: string, w: string)
    requires StartsString(v) && (w == "" || w[0] !in QUOTES) && StartsString(v + w) && ClosedLen(v + w) == Some(|v|)
    requires IsTriple(v + w) || '\n' !in v
    ensures StringOk(v)
  {
    hide PrefixRun, StartsString, CloseLen, ClosedLen, IsTriple;
    SameOpening(v, w);
    var open, m := BodyOf(v + w);
    CloseNeedsOne((v + w)[open..], v[PrefixRun(v)], IsTriple(v));
    assert (v + w)[open..] == v[open..] + w;
    CloseCut(v[open..], v[PrefixRun(v)], IsTriple(v), w);
    BodyAlone(v, open, m);
  }

  lemma BodyAlone(v: string, open: nat, m: nat)
    requires StartsString(v) && PrefixRun(v) < |v| && open <= |v| && open + m == |v|
    requires open == if IsTriple(v) then PrefixRun(v) + 3 else PrefixRun(v) + 1
    requires CloseLen(v[open..], v[PrefixRun(v)], IsTriple(v)) == Some(m)
    ensures ClosedLen(v) == Some(|v|)
  {
    hide QUOTES, PREFIXES, PrefixRun, StartsString, CloseLen, IsTriple;
  }

  lemma Starts(v: string)
    ensures StartsString(v) <==> PrefixRun(v) < |v| && v[PrefixRun(v)] in QUOTES
  {
    if StartsString(v) {
      QuoteInside(v);
    }
  }

  lemma SameOpening(v: string, w: string)
    requires StartsString(v) && (w == "" || w[0] !in QUOTES)
    ensures PrefixRun(v) < |v| && v[PrefixRun(v)] in QUOTES
    ensures PrefixRun(v + w) == PrefixRun(v) && StartsString(v + w) && (IsTriple(v + w) <==> IsTriple(v))
    ensures (v + w)[PrefixRun(v)] == v[PrefixRun(v)]
  {
    hide PrefixRun, StartsString;
    Starts(v);
    PrefixRunStays(v, w);
    Starts(v + w);
  }

  /** Where a closed literal's body starts, and how long it is. */
  lemma BodyOf(s: string) returns (open: nat, m: nat)
    requires StartsString(s) && ClosedLen(s).Some?
    ensures PrefixRun(s) < |s| && PrefixRun(s) < open <= |s| && ClosedLen(s).value == open + m
    ensures open == if IsTriple(s) then PrefixRun(s) + 3 else PrefixRun(s) + 1
    ensures CloseLen(s[open..], s[PrefixRun(s)], IsTriple(s)) == Some(m)
  {
    open := if IsTriple(s) then PrefixRun(s) + 3 else PrefixRun(s) + 1;
    hide QUOTES, PREFIXES, PrefixRun, StartsString, CloseLen, IsTriple;
    m := ClosedLen(s).value - open;
  }

  lemma ClosesWithQuote(s: string)
    requires StartsString(s) && ClosedLen(s).Some?
    ensures PrefixRun(s) < |s| && s[PrefixRun(s)] in QUOTES
    ensures ClosedLen(s).value > PrefixRun(s) + 1 && s[ClosedLen(s).value - 1] == s[PrefixRun(s)]
  {
    hide *;
    Starts(s);
    var open, m := BodyOf(s);
    CloseEnds(s[open..], s[PrefixRun(s)], IsTriple(s));
    CloseNeedsOne(s[open..], s[PrefixRun(s)], IsTriple(s));
    assert s[open..][m - 1] == s[open + m - 1];
  }

  lemma CloseNeedsOne(s: string, q: char, triple: bool)
    ensures CloseLen(s, q, triple).Some? ==> 0 < CloseLen(s, q, triple).value <= |s|
  {
    hide CloseLen;
  }

  /** A literal read at the start of a text starts a string by itself. */
  lemma LiteralStarts(s: string)
    requires StartsString(s) && ClosedLen(s).Some? && ClosedLen(s).value > PrefixRun(s) + 1
    ensures StartsString(s[..ClosedLen(s).value]) && PrefixRun(s[..ClosedLen(s).value]) == PrefixRun(s)
  {
    CutStarts(s, ClosedLen(s).value);
  }

  lemma CutStarts(s: string, n: nat)
    requires StartsString(s) && PrefixRun(s) < n <= |s|
    ensures StartsString(s[..n]) && PrefixRun(s[..n]) == PrefixRun(s)
  {
    hide *;
    Starts(s);
    PrefixCut(s, n);
    Starts(s[..n]);
  }

  lemma {:induction false} PrefixCut(s: string, n: nat)
    requires PrefixRun(s) < n <= |s|
    ensures PrefixRun(s[..n]) == PrefixRun(s)
  {
    hide PREFIXES;
    assert s[..n][0] == s[0];
    if s[0] in PREFIXES {
      PrefixCut(s[1..], n - 1);
      assert s[..n][1..] == s[1..][..n - 1];
    }
  }

  lemma QuoteInk(u: Classes, c: char)
    requires Sane(u) && c in QUOTES
    ensures !u.space(c) && c != '\n' && Ink(u, [c]) == 1
  {
    assert [c][1..] == "";
  }

  /** A closed literal broken over lines collapses to no beginning of the text it was
      read from: there is less ink in any shorter beginning. */
  lemma CollapsedDiffers(u: Classes, v: string, l: string, w: string)
    requires Sane(u) && StartsString(l) && |l| > PrefixRun(l) + 1 && l <= v + w
    requires '\n' in l && l[|l| - 1] in QUOTES
    ensures Collapsed(u, l) != v
  {
    hide *;
    CollapsedInk(u, l);
    QuoteInk(u, l[|l| - 1]);
    var c := Collapsed(u, l);
    if |l| > |v| {
      LessInk(u, l, v, w);
    } else {
      assert l <= v;
      assert |c| == |v| ==> l == v;
    }
  }

  lemma LessInk(u: Classes, l: string, v: string, w: string)
    requires l <= v + w && |l| > |v| && Ink(u, [l[|l| - 1]]) == 1
    ensures Ink(u, l) > Ink(u, v)
  {
    hide *;
    var x, y := l[|v|..|l| - 1], [l[|l| - 1]];
    assert l[..|v|] == v;
    assert l == v + (x + y);
    InkConcat(u, v, x + y);
    InkConcat(u, x, y);
  }
}
