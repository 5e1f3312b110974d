/**
 What the emphasis passes do to converted links: they run over the whole prose, rendered links
 included, so a link stands verbatim exactly when no pass replaces a delimiter inside it.
 */
module MrkdwnLinks {
  import opened Wrappers
  import opened Sequences
  import opened Mrkdwn
  import opened MrkdwnScan
  import opened MrkdwnTheorems
  import opened MrkdwnLines

  // ---- the text inside angle brackets ----

  /** Whether the text leaves a reader inside a bracket. */
  function After(s: string, inside: bool): bool {
    if s == [] then inside
    else After(s[1..], if s[0] == '<' then true else if s[0] == '>' then false else inside)
  }

  /** Everything from each `<` to its `>`, brackets included. */
  function LinkText(s: string, inside: bool): string {
    if s == [] then []
    else if s[0] == '<' then ['<'] + LinkText(s[1..], true)
    else if s[0] == '>' then ['>'] + LinkText(s[1..], false)
    else (if inside then [s[0]] else []) + LinkText(s[1..], inside)
  }

  function RenderedLinks(ps: seq<Piece>): string {
    if ps == [] then [] else (if ps[0].Link? then Render(ps[0]) else []) + RenderedLinks(ps[1..])
  }

  lemma {:induction false} LinkTextConcat(a: string, b: string, inside: bool)
    ensures LinkText(a + b, inside) == LinkText(a, inside) + LinkText(b, After(a, inside))
    ensures After(a + b, inside) == After(b, After(a, inside))
  {
    if a == [] {
      assert a + b == b;
    } else {
      assert (a + b)[0] == a[0] && (a + b)[1..] == a[1..] + b;
      var next := if a[0] == '<' then true else if a[0] == '>' then false else inside;
      LinkTextConcat(a[1..], b, next);
      var head := if a[0] == '<' || a[0] == '>' || inside then [a[0]] else [];
      Assoc(head, LinkText(a[1..], next), LinkText(b, After(a, inside)));
    }
  }

  /** Text without brackets is kept inside a bracket and skipped outside. */
  lemma {:induction false} LinkTextPlain(s: string, inside: bool)
    requires Brackets(s) == []
    ensures LinkText(s, inside) == (if inside then s else []) && After(s, inside) == inside
  {
    if s != [] {
      LinkTextPlain(s[1..], inside);
      assert s == [s[0]] + s[1..];
    }
  }

  lemma {:induction false} InnerBracketFree(text: string, url: string)
    requires Brackets(text) == [] && Brackets(url) == []
    ensures Brackets(url + "|" + text) == []
  {
    NoBrackets("|");
    hide Brackets;
    BracketsConcat(url, "|");
    BracketsConcat(url + "|", text);
  }

  lemma {:induction false} OpenAndClose()
    ensures LinkText("<", false) == "<" && After("<", false)
    ensures LinkText(">", true) == ">" && !After(">", true)
  {
  }

  lemma {:induction false} LinkTextOfLink(text: string, url: string)
    requires Brackets(text) == [] && Brackets(url) == []
    ensures var link := Render(Link(text, url)); LinkText(link, false) == link && !After(link, false)
  {
    hide Brackets, LinkText, After;
    var inner := url + "|" + text;
    InnerBracketFree(text, url);
    LinkTextPlain(inner, true);
    OpenAndClose();
    LinkTextConcat("<", inner, false);
    LinkTextConcat("<" + inner, ">", false);
    assert Render(Link(text, url)) == "<" + inner + ">" by {
      assert "<" + url + "|" + text == "<" + inner;
    }
  }

  lemma {:induction false} PartsBracketFree(link: Piece, s: string)
    requires link.Link? && Source(link) <= s && Brackets(s) == []
    ensures Brackets(link.text) == [] && Brackets(link.url) == []
  {
    var t, u := |link.text|, |link.url|;
    LinkParts(link, s);
    BracketFree(s, 1, 1 + t);
    BracketFree(s, t + 3, t + 3 + u);
  }

  /** Before the emphasis passes, what stands in brackets is exactly the rendered links. */
  lemma {:induction false} LinkedHoldsLinks(s: string)
    requires Brackets(s) == []
    ensures LinkText(Linked(s), false) == RenderedLinks(Pieces(s)) && !After(Linked(s), false)
    decreases |s|
  {
    if s == [] {
      assert Linked(s) == [];
    } else {
      match LinkHere(s)
      case None =>
        BracketFree(s, 1, |s|);
        assert s[1..|s|] == s[1..];
        LinkedHoldsLinks(s[1..]);
        PlainStep(s);
        OneLink(Plain(s[0]), Pieces(s[1..]));
        LinkTextConcat([s[0]], Linked(s[1..]), false);
        BracketFree(s, 0, 1);
        assert s[0..1] == [s[0]];
        LinkTextPlain([s[0]], false);
      case Some(link) =>
        var n := |Source(link)|;
        BracketFree(s, n, |s|);
        assert s[n..|s|] == s[n..];
        LinkedHoldsLinks(s[n..]);
        TakeLink(s);
        OneLink(link, Pieces(s[n..]));
        PartsBracketFree(link, s);
        LinkTextOfLink(link.text, link.url);
        LinkTextConcat(Render(link), Linked(s[n..]), false);
    }
  }

  lemma {:induction false} OneLink(p: Piece, ps: seq<Piece>)
    ensures RenderedLinks([p] + ps) == (if p.Link? then Render(p) else []) + RenderedLinks(ps)
  {
    assert ([p] + ps)[1..] == ps;
  }

  // ---- the passes ----

  /** How many of the replaced delimiters lie inside a bracket. */
  function HitsInside(s: string, d: char, k: nat, inside: bool): nat {
    if s == [] || k == 0 then 0
    else if StartsPair(s, d) then (if inside then 1 else 0) + HitsInside(s[2..], d, k - 1, inside)
    else HitsInside(s[1..], d, k, if s[0] == '<' then true else if s[0] == '>' then false else inside)
  }

  lemma {:induction false} PassOverLinks(s: string, d: char, wrap: char, k: nat, inside: bool)
    requires Marker(d) && Marker(wrap)
    ensures |LinkText(Pairs(s, d, wrap, k), inside)| == |LinkText(s, inside)| - HitsInside(s, d, k, inside)
    ensures HitsInside(s, d, k, inside) == 0 ==> LinkText(Pairs(s, d, wrap, k), inside) == LinkText(s, inside)
  {
    if s == [] {
    } else if k == 0 {
      NoPairsNoChange(s, d, wrap);
    } else if StartsPair(s, d) {
      PassOverLinks(s[2..], d, wrap, k - 1, inside);
      PairText(d, s[2..], inside);
      assert s == [d, d] + s[2..];
      assert ([wrap] + Pairs(s[2..], d, wrap, k - 1))[1..] == Pairs(s[2..], d, wrap, k - 1);
    } else {
      var next := if s[0] == '<' then true else if s[0] == '>' then false else inside;
      PassOverLinks(s[1..], d, wrap, k, next);
      assert ([s[0]] + Pairs(s[1..], d, wrap, k))[1..] == Pairs(s[1..], d, wrap, k);
    }
  }

  lemma {:induction false} PairText(d: char, rest: string, inside: bool)
    requires Marker(d)
    ensures LinkText([d, d] + rest, inside) == (if inside then [d, d] else []) + LinkText(rest, inside)
  {
    assert ([d, d] + rest)[1..] == [d] + rest && ([d] + rest)[1..] == rest;
  }

  /** The texts the second and third pass see. */
  function AfterStars(s: string): string { PairsOf(Linked(Escape(s)), '*', '*') }

  function AfterUnderscores(s: string): string { PairsOf(AfterStars(s), '_', '*') }

  /** The delimiters a whole pass replaces inside a bracket. */
  function Hits(s: string, d: char): nat { HitsInside(s, d, Paired(s, d), false) }

  /** No pass replaces a delimiter inside a rendered link. */
  predicate LinksUntouched(s: string) {
    var a, b, c := Linked(Escape(s)), AfterStars(s), AfterUnderscores(s);
    Hits(a, '*') == 0 && Hits(b, '_') == 0 && Hits(c, '~') == 0
  }

  /** The links found in the prose stand verbatim in the output if and only if no pass touches them. */
  lemma {:induction false} LinksVerbatimIff(s: string)
    ensures LinkText(TransformProse(s), false) == RenderedLinks(Pieces(Escape(s))) <==> LinksUntouched(s)
  {
    var a, b, c := Linked(Escape(s)), AfterStars(s), AfterUnderscores(s);
    EscapeIsWellFormed(s);
    assert Brackets(Escape(s)) == [];
    LinkedHoldsLinks(Escape(s));
    assert b == PairsOf(a, '*', '*') && c == PairsOf(b, '_', '*') && TransformProse(s) == PairsOf(c, '~', '~');
    assert LinksUntouched(s) <==> Hits(a, '*') == 0 && Hits(b, '_') == 0 && Hits(c, '~') == 0;
    hide Escape, Linked, LinkText, Pieces, RenderedLinks, PairsOf, TransformProse, AfterStars, AfterUnderscores, LinksUntouched, Hits, Brackets;
    WholePass(a, '*', '*');
    WholePass(b, '_', '*');
    WholePass(c, '~', '~');
  }

  lemma {:induction false} WholePass(s: string, d: char, wrap: char)
    requires Marker(d) && Marker(wrap)
    ensures |LinkText(PairsOf(s, d, wrap), false)| == |LinkText(s, false)| - Hits(s, d)
    ensures Hits(s, d) == 0 ==> LinkText(PairsOf(s, d, wrap), false) == LinkText(s, false)
  {
    PassOverLinks(s, d, wrap, Paired(s, d), false);
  }

  // ---- a link that is written is converted ----

  /** A link with a plain text and url becomes `<url|text>`, whatever follows it. */
  lemma {:induction false} WrittenLinkIsConverted(text: string, url: string, rest: string)
    requires '[' !in text && ']' !in text && url != [] && ')' !in url
    ensures Linked(Source(Link(text, url)) + rest) == Render(Link(text, url)) + Linked(rest)
  {
    var s := Source(Link(text, url)) + rest;
    LinkIffWritten(s, text, url);
    hide Linked, LinkHere;
    TakeLink(s);
    assert s[|Source(Link(text, url))|..] == rest;
  }

  // ---- a url that is altered ----

  /** A pass copies what holds no delimiter. */
  lemma {:induction false} PassSkips(x: string, rest: string, d: char, wrap: char, k: nat, inside: bool)
    requires d !in x
    ensures Pairs(x + rest, d, wrap, k) == x + Pairs(rest, d, wrap, k)
    ensures |Split(x + rest, d)| == |Split(rest, d)|
    ensures HitsInside(x + rest, d, k, inside) == HitsInside(rest, d, k, After(x, inside))
  {
    if x == [] {
      assert x + rest == rest;
    } else {
      assert (x + rest)[0] == x[0] && (x + rest)[1..] == x[1..] + rest;
      PassSkips(x[1..], rest, d, wrap, k, if x[0] == '<' then true else if x[0] == '>' then false else inside);
    }
  }

  lemma {:induction false} PassTakes(rest: string, d: char, wrap: char, k: nat, inside: bool)
    requires k > 0
    ensures Pairs([d, d] + rest, d, wrap, k) == [wrap] + Pairs(rest, d, wrap, k - 1)
    ensures |Split([d, d] + rest, d)| == |Split(rest, d)| + 1
    ensures HitsInside([d, d] + rest, d, k, inside) == (if inside then 1 else 0) + HitsInside(rest, d, k - 1, inside)
  {
    assert ([d, d] + rest)[2..] == rest;
  }

  /** Two doubled underscores inside one link: the pass takes both. */
  lemma {:induction false} PassInsideLink(a: string, b: string, c: string)
    requires '_' !in a && '_' !in b && '_' !in c
    ensures var t := a + ("__" + (b + ("__" + c)));
            PairsOf(t, '_', '*') == a + ("*" + (b + ("*" + c)))
            && HitsInside(t, '_', Paired(t, '_'), false) == (if After(a, false) then 1 else 0) + (if After(b, After(a, false)) then 1 else 0)
  {
    var inA, inB := After(a, false), After(b, After(a, false));
    hide After, Pairs, Split, HitsInside;
    NothingToReplace(c, '_', '*');
    NoPairsNoChange(c, '_', '*');
    HitsNothing(c, '_', inB);
    var tail := "__" + c;
    PassTakes(c, '_', '*', 1, inB);
    assert tail == ['_', '_'] + c;
    PassSkips(b, tail, '_', '*', 1, inA);
    PassTakes(b + tail, '_', '*', 2, inA);
    assert "__" + (b + tail) == ['_', '_'] + (b + tail);
    PassSkips(a, "__" + (b + tail), '_', '*', 2, false);
  }

  lemma {:induction false} HitsNothing(s: string, d: char, inside: bool)
    ensures HitsInside(s, d, 0, inside) == 0
  {
  }

  /** No character with a meaning in the source or the output. */
  ghost predicate Ordinary(s: string) {
    forall i | 0 <= i < |s| :: s[i] !in "&<>[]()*_~"
  }

  lemma {:induction false} OrdinaryHolds(s: string)
    requires Ordinary(s)
    ensures '&' !in s && '<' !in s && '>' !in s && '[' !in s && ']' !in s && ')' !in s && '*' !in s && '_' !in s && '~' !in s
  {
  }

  /** The rendered link `<a__b__c|text>`, grouped around its doubled underscores. */
  lemma {:induction false} Regroup(mark: string, text: string, a: string, b: string, c: string)
    ensures Render(Link(text, a + mark + b + mark + c)) == ("<" + a) + (mark + (b + (mark + (c + "|" + text + ">"))))
  {
    Assoc("<" + a, mark, b + (mark + (c + "|" + text + ">")));
    Assoc("<" + a + mark, b, mark + (c + "|" + text + ">"));
    Assoc("<" + a + mark + b, mark, c + "|" + text + ">");
    assert "<" + (a + mark + b + mark + c) == "<" + a + mark + b + mark + c;
    assert ("<" + a + mark + b + mark) + (c + "|" + text + ">") == "<" + a + mark + b + mark + c + "|" + text + ">";
  }

  /**
   Two doubled underscores in a url are taken for bold, as in `[a](x__y__z)`: the link that is sent
   points elsewhere.
   */
  lemma {:induction false} EmphasisAltersUrl(text: string, a: string, b: string, c: string)
    requires Ordinary(text) && Ordinary(a) && Ordinary(b) && Ordinary(c)
    ensures var s := Source(Link(text, a + "__" + b + "__" + c));
            TransformProse(s) == Render(Link(text, a + "*" + b + "*" + c)) && !LinksUntouched(s)
  {
    var url := a + "__" + b + "__" + c;
    var s := Source(Link(text, url));
    OrdinaryHolds(text);
    OrdinaryHolds(a);
    OrdinaryHolds(b);
    OrdinaryHolds(c);
    NothingToEscape(s);
    WrittenAlone(text, url);
    PassesOverUrl(text, a, b, c);
    hide Escape, Linked, Source, Render, HitsInside, Paired, PairsOf, Ordinary;
    assert AfterStars(s) == Render(Link(text, url));
    assert AfterUnderscores(s) == Render(Link(text, a + "*" + b + "*" + c));
  }

  lemma {:induction false} WrittenAlone(text: string, url: string)
    requires '[' !in text && ']' !in text && url != [] && ')' !in url
    ensures Linked(Source(Link(text, url))) == Render(Link(text, url))
  {
    WrittenLinkIsConverted(text, url, []);
    assert Linked([]) == [];
    hide Linked, Source, Render;
    assert Source(Link(text, url)) + [] == Source(Link(text, url));
    assert Render(Link(text, url)) + [] == Render(Link(text, url));
  }

  lemma {:induction false} NoBracketKeepsInside(s: string, inside: bool)
    requires '<' !in s && '>' !in s
    ensures After(s, inside) == inside
  {
    if s != [] { NoBracketKeepsInside(s[1..], inside); }
  }

  lemma {:induction false} PassesOverUrl(text: string, a: string, b: string, c: string)
    requires Ordinary(text) && Ordinary(a) && Ordinary(b) && Ordinary(c)
    ensures var before, out := Render(Link(text, a + "__" + b + "__" + c)), Render(Link(text, a + "*" + b + "*" + c));
            && PairsOf(before, '*', '*') == before && PairsOf(before, '_', '*') == out && PairsOf(out, '~', '~') == out
            && HitsInside(before, '_', Paired(before, '_'), false) == 2
  {
    OrdinaryHolds(text);
    OrdinaryHolds(a);
    OrdinaryHolds(b);
    OrdinaryHolds(c);
    hide Ordinary, PairsOf, HitsInside, Paired;
    var tail := c + "|" + text + ">";
    NothingToReplace(Render(Link(text, a + "__" + b + "__" + c)), '*', '*');
    NothingToReplace(Render(Link(text, a + "*" + b + "*" + c)), '~', '~');
    assert After("<" + a, false) by {
      assert ("<" + a)[1..] == a;
      NoBracketKeepsInside(a, true);
    }
    NoBracketKeepsInside(b, true);
    PassInsideLink("<" + a, b, tail);
    Regroup("__", text, a, b, c);
    Regroup("*", text, a, b, c);
  }

  /** The instance `[a](x__y__z)`. */
  lemma {:induction false} EmphasisAltersThisUrl()
    ensures var s := Source(Link("a", "x" + "__" + "y" + "__" + "z"));
            TransformProse(s) == Render(Link("a", "x" + "*" + "y" + "*" + "z")) && !LinksUntouched(s)
  {
    hide TransformProse, LinksUntouched, Source, Render;
    EmphasisAltersUrl("a", "x", "y", "z");
  }
}
