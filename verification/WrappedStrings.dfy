/** String literals that run over the ends of lines, and how the lexer puts them on one. */
module WrappedStrings {
  import opened JacTokens
  import opened LexLaws
  import opened Wrappers

  predicate AllSpace(u: Classes, g: string) {
    forall i :: 0 <= i < |g| ==> u.space(g[i])
  }

  predicate NoSpace(u: Classes, w: string) {
    w != "" && forall i :: 0 <= i < |w| ==> !u.space(w[i])
  }

  /** Each word with the gap behind it; only the last gap may be empty. */
  predicate Separated(u: Classes, ws: seq<string>, gaps: seq<string>) {
    && |gaps| == |ws| && (forall i :: 0 <= i < |ws| ==> NoSpace(u, ws[i]) && AllSpace(u, gaps[i]))
    && forall i :: 0 <= i < |ws| - 1 ==> gaps[i] != ""
  }

  function Laid(ws: seq<string>, gaps: seq<string>): string
    requires |gaps| == |ws|
  {
    if ws == [] then "" else ws[0] + gaps[0] + Laid(ws[1..], gaps[1..])
  }

  /** The words on one line. */
  function OneLine(ws: seq<string>): string {
    if ws == [] then "" else if |ws| == 1 then ws[0] else OneLine(ws[..|ws| - 1]) + " " + ws[|ws| - 1]
  }

  lemma {:induction false} GapSkipped(u: Classes, g: string, s: string)
    requires AllSpace(u, g)
    ensures Words(u, g + s) == Words(u, s)
  {
    if g == "" {
      assert g + s == s;
    } else {
      assert (g + s)[1..] == g[1..] + s;
      GapSkipped(u, g[1..], s);
    }
  }

  lemma {:induction false} WordEndsThere(u: Classes, w: string, s: string)
    requires (forall i :: 0 <= i < |w| ==> !u.space(w[i])) && (s == "" || u.space(s[0]))
    ensures FirstWord(u, w + s) == |w|
  {
    if w == "" {
      assert w + s == s;
    } else {
      assert (w + s)[1..] == w[1..] + s;
      WordEndsThere(u, w[1..], s);
    }
  }

  lemma WordThen(u: Classes, w: string, rest: string)
    requires NoSpace(u, w) && (rest == "" || u.space(rest[0]))
    ensures Words(u, w + rest) == [w] + Words(u, rest)
  {
    WordEndsThere(u, w, rest);
    assert (w + rest)[0] == w[0] && (w + rest)[..|w|] == w && (w + rest)[|w|..] == rest;
    hide FirstWord;
  }

  lemma SeparatedTail(u: Classes, ws: seq<string>, gaps: seq<string>)
    requires Separated(u, ws, gaps) && ws != []
    ensures NoSpace(u, ws[0]) && AllSpace(u, gaps[0]) && Separated(u, ws[1..], gaps[1..])
    ensures gaps[0] == "" ==> |ws| == 1
  {
    hide NoSpace, AllSpace;
  }

  lemma Separate(u: Classes, ws: seq<string>, gaps: seq<string>)
    requires |gaps| == |ws| && ws != [] && AllSpace(u, gaps[0]) && (gaps[0] == "" ==> |ws| == 1)
    ensures var rest := gaps[0] + Laid(ws[1..], gaps[1..]);
            Laid(ws, gaps) == ws[0] + rest && (rest == "" || u.space(rest[0]))
  {
    var tail := Laid(ws[1..], gaps[1..]);
    assert |ws| == 1 ==> tail == "";
    hide Laid;
    assert ws[0] + gaps[0] + tail == ws[0] + (gaps[0] + tail);
  }

  lemma {:induction false} WordsLaid(u: Classes, ws: seq<string>, gaps: seq<string>)
    requires |gaps| == |ws| && Separated(u, ws, gaps)
    ensures Words(u, Laid(ws, gaps)) == ws
    decreases |ws|
  {
    if ws != [] {
      hide *;
      SeparatedTail(u, ws, gaps);
      Separate(u, ws, gaps);
      var rest := Laid(ws[1..], gaps[1..]);
      WordThen(u, ws[0], gaps[0] + rest);
      GapSkipped(u, gaps[0], rest);
      WordsLaid(u, ws[1..], gaps[1..]);
    }
  }

  lemma {:induction false} SpacedIs(ws: seq<string>)
    ensures Spaced(ws) == OneLine(ws)
    decreases |ws|
  {
    if |ws| > 1 {
      SpacedIs(ws[1..]);
      var init, tail := ws[..|ws| - 1], ws[1..];
      assert tail[..|tail| - 1] == init[1..];
      if |ws| > 2 {
        SpacedIs(init);
        SpacedIs(init[1..]);
        assert Spaced(init) == ws[0] + " " + OneLine(init[1..]);
        assert OneLine(tail) == OneLine(init[1..]) + " " + ws[|ws| - 1];
      } else {
        assert init == [ws[0]] && tail == [ws[1]];
      }
    }
  }

  lemma {:induction false} ClosesHere(c: string, q: char, w: string)
    requires InsideTriple(c, q) && q in "\"'"
    ensures CloseLen(c + [q] + w, q, false) == Some(|c| + 1)
  {
    var s := c + [q] + w;
    if c != "" {
      assert s[0] == c[0] && s[1..] == c[1..] + [q] + w;
      ClosesHere(c[1..], q, w);
    }
  }

  /** The literal ends at its second quote, wherever the lines end. */
  lemma WrappedLength(p: string, q: char, c: string, w: string)
    requires IsPrefix(p) && q in "\"'" && InsideTriple(c, q) && c != ""
    ensures var s := p + [q] + c + [q] + w;
            && StartsString(s) && !IsTriple(s) && StringLen(s) == |p| + |c| + 2
  {
    var s := p + [q] + c + [q] + w;
    assert s == p + [q] + (c + [q] + w);
    StartsThere(p, q, c + [q] + w);
    assert s[|p| + 1] == c[0] && s[|p| + 1..] == c + [q] + w;
    ClosesHere(c, q, w);
    hide CloseLen, PrefixRun, StartsString;
  }

  lemma CollapsedIs(u: Classes, p: string, q: char, c: string, ws: seq<string>)
    requires IsPrefix(p) && q in "\"'" && Words(u, c) == ws
    ensures Collapsed(u, p + [q] + c + [q]) == p + [q] + OneLine(ws) + [q]
  {
    var v := p + [q] + c + [q];
    assert v == p + [q] + (c + [q]);
    StartsThere(p, q, c + [q]);
    SpacedIs(ws);
    hide PrefixRun, Words, Spaced, OneLine, StartsString;
    assert v[..|p| + 1] == p + [q] && v[|p| + 1..|v| - 1] == c;
  }

  /** A quoted text with line breaks is one string token on one line: its words, whatever
      blanks separate them, are joined by single blanks, and blanks at its ends are gone. */
  lemma WrappedIsRead(u: Classes, p: string, q: char, lead: string, ws: seq<string>, gaps: seq<string>, w: string)
    requires Sane(u) && IsPrefix(p) && q in "\"'" && AllSpace(u, lead)
    requires |gaps| == |ws| && Separated(u, ws, gaps)
    requires var c := lead + Laid(ws, gaps); InsideTriple(c, q) && '\n' in c
    ensures var c := lead + Laid(ws, gaps);
            Gives(u, p + [q] + c + [q] + w, Token(String, p + [q] + OneLine(ws) + [q], false), w)
  {
    hide *;
    var c := lead + Laid(ws, gaps);
    var v := p + [q] + c + [q];
    assert c != "";
    GapSkipped(u, lead, Laid(ws, gaps));
    WordsLaid(u, ws, gaps);
    CollapsedIs(u, p, q, c, ws);
    WrappedLength(p, q, c, w);
    ReadsWrapped(u, v, w);
    assert v == p + [q] + (c + [q]);
    QuoteHead(p, q, c + [q]);
    GivesOne(u, v, w, Token(String, p + [q] + OneLine(ws) + [q], false));
  }

  lemma ReadsWrapped(u: Classes, v: string, w: string)
    requires StartsString(v + w) && !IsTriple(v + w) && StringLen(v + w) == |v| && '\n' in v
    ensures v != "" && v + w != "" && Read(u, v + w) == Some((Token(String, Collapsed(u, v), false), |v|))
  {
    hide StartsString, IsTriple, StringLen, Collapsed;
    assert (v + w)[..|v|] == v;
  }
}
