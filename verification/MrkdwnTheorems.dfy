/** What the translated text always looks like, whatever the body. */
module MrkdwnTheorems {
  import opened Wrappers
  import opened Sequences
  import opened Mrkdwn
  import opened MrkdwnScan

  // ---- well-formed text ----

  /** The angle brackets of a text, in order. */
  function Brackets(s: string): string {
    if s == [] then [] else (if s[0] == '<' || s[0] == '>' then [s[0]] else []) + Brackets(s[1..])
  }

  /** `n` bracket pairs: strictly alternating. */
  function Times(n: nat): string { if n == 0 then [] else "<>" + Times(n - 1) }

  ghost predicate WordAt(s: string, i: nat)
    requires i <= |s|
  {
    AMP <= s[i..] || LT <= s[i..] || GT <= s[i..]
  }

  /** Every ampersand begins one of the three entities. */
  ghost predicate Entities(s: string) {
    forall i | 0 <= i < |s| && s[i] == '&' :: WordAt(s, i)
  }

  /** The text has exactly `n` bracket pairs and no stray ampersand. */
  ghost predicate WellFormed(s: string, n: nat) {
    Brackets(s) == Times(n) && Entities(s)
  }

  lemma {:induction false} BracketsConcat(a: string, b: string)
    ensures Brackets(a + b) == Brackets(a) + Brackets(b)
  {
    if a == [] {
      assert a + b == b;
    } else {
      assert (a + b)[1..] == a[1..] + b && (a + b)[0] == a[0];
      BracketsConcat(a[1..], b);
      Assoc(if a[0] == '<' || a[0] == '>' then [a[0]] else [], Brackets(a[1..]), Brackets(b));
    }
  }

  lemma {:induction false} TimesConcat(m: nat, n: nat)
    ensures Times(m) + Times(n) == Times(m + n)
  {
    if m > 0 { TimesConcat(m - 1, n); }
  }

  lemma {:induction false} EntitiesConcat(a: string, b: string)
    requires Entities(a) && Entities(b)
    ensures Entities(a + b)
  {
    forall i | 0 <= i < |a + b| && (a + b)[i] == '&' ensures WordAt(a + b, i) {
      if i < |a| {
        assert WordAt(a, i) && (a + b)[i..] == a[i..] + b;
      } else {
        assert WordAt(b, i - |a|) && (a + b)[i..] == b[i - |a|..];
      }
    }
  }

  lemma {:induction false} EntitiesSuffix(s: string, k: nat)
    requires k <= |s| && Entities(s)
    ensures Entities(s[k..])
  {
    forall i | 0 <= i < |s[k..]| && s[k..][i] == '&' ensures WordAt(s[k..], i) {
      assert WordAt(s, k + i) && s[k..][i..] == s[k + i..];
    }
  }

  predicate InWord(c: char) { c in "&amp;lt;gt;" }

  /** A cut before a character of no entity cuts no entity. */
  lemma {:induction false} EntitiesCut(s: string, k: nat)
    requires k < |s| && !InWord(s[k]) && Entities(s)
    ensures Entities(s[..k])
  {
    forall i | 0 <= i < |s[..k]| && s[..k][i] == '&' ensures WordAt(s[..k], i) {
      assert WordAt(s, i);
      if AMP <= s[i..] {
        WordEndsBefore(s, i, k, AMP);
      } else if LT <= s[i..] {
        WordEndsBefore(s, i, k, LT);
      } else {
        WordEndsBefore(s, i, k, GT);
      }
    }
  }

  lemma {:induction false} WordEndsBefore(s: string, i: nat, k: nat, word: string)
    requires i < k < |s| && word <= s[i..] && !InWord(s[k]) && forall j | 0 <= j < |word| :: InWord(word[j])
    ensures word <= s[..k][i..]
  {
    assert forall j | 0 <= j < |word| :: word[j] == s[i..][j] == s[i + j];
    assert k >= i + |word|;
    assert s[..k][i..][..|word|] == s[i..][..|word|];
  }

  lemma {:induction false} Concat(a: string, m: nat, b: string, n: nat)
    requires WellFormed(a, m) && WellFormed(b, n)
    ensures WellFormed(a + b, m + n)
  {
    BracketsConcat(a, b);
    TimesConcat(m, n);
    EntitiesConcat(a, b);
  }

  lemma {:induction false} Harmless(s: string)
    requires '&' !in s && '<' !in s && '>' !in s
    ensures WellFormed(s, 0)
  {
    if s != [] { Harmless(s[1..]); }
  }

  // ---- escaping ----

  lemma {:induction false} NoBrackets(s: string)
    requires '<' !in s && '>' !in s
    ensures Brackets(s) == []
  {
    if s != [] { NoBrackets(s[1..]); }
  }

  lemma {:induction false} OneWord(word: string)
    requires word == AMP || word == LT || word == GT
    ensures WellFormed(word, 0)
  {
    hide Brackets;
    NoBrackets(word);
    assert word[0..] == word && WordAt(word, 0);
    assert forall i | 1 <= i < |word| :: word[i] != '&';
  }

  lemma {:induction false} WordsAreWellFormed(c: char)
    ensures WellFormed(EscapeChar(c), 0)
  {
    if c == '&' || c == '<' || c == '>' {
      OneWord(EscapeChar(c));
    } else {
      Harmless([c]);
    }
  }

  /** Escaped text holds no bracket and no stray ampersand. */
  lemma {:induction false} EscapeIsWellFormed(s: string)
    ensures WellFormed(Escape(s), 0)
  {
    if s != [] {
      WordsAreWellFormed(s[0]);
      EscapeIsWellFormed(s[1..]);
      Concat(EscapeChar(s[0]), 0, Escape(s[1..]), 0);
    }
  }

  /** A reader takes each escaped character for itself. */
  lemma {:induction false} UnescapeWord(c: char, rest: string)
    ensures Unescape(EscapeChar(c) + rest) == [c] + Unescape(rest)
  {
    var s := EscapeChar(c) + rest;
    var n := |EscapeChar(c)|;
    assert s[..n] == EscapeChar(c) && s[n..] == rest;
    if c == '&' {
      assert AMP <= s;
    } else if c == '<' {
      assert LT <= s && s[1] == 'l' && !(AMP <= s);
    } else if c == '>' {
      assert GT <= s && s[1] == 'g' && !(AMP <= s) && !(LT <= s);
    } else {
      assert s[0] == c && !(AMP <= s) && !(LT <= s) && !(GT <= s);
    }
  }

  /** Nothing is lost: a reader of the entities sees the original text. */
  lemma {:induction false} UnescapeUndoesEscape(s: string)
    ensures Unescape(Escape(s)) == s
  {
    if s != [] {
      hide Unescape, EscapeChar;
      UnescapeUndoesEscape(s[1..]);
      UnescapeWord(s[0], Escape(s[1..]));
      assert s == [s[0]] + s[1..];
    }
  }

  // ---- links ----

  lemma {:induction false} OnePiece(p: Piece, ps: seq<Piece>)
    ensures SourceAll([p] + ps) == Source(p) + SourceAll(ps)
    ensures LinkCount([p] + ps) == (if p.Link? then 1 else 0) + LinkCount(ps)
  {
    assert ([p] + ps)[1..] == ps;
  }

  /** A link is rendered only where its source was written: the pieces spell the text. */
  lemma {:induction false} PiecesSpellTheText(s: string)
    ensures SourceAll(Pieces(s)) == s
    ensures forall p | p in Pieces(s) && p.Link? :: '[' !in p.text && p.url != []
    decreases |s|
  {
    if s != [] {
      match LinkHere(s)
      case None =>
        PiecesSpellTheText(s[1..]);
        OnePiece(Plain(s[0]), Pieces(s[1..]));
      case Some(link) =>
        var n := |Source(link)|;
        PiecesSpellTheText(s[n..]);
        OnePiece(link, Pieces(s[n..]));
        assert s == s[..n] + s[n..];
    }
  }

  lemma {:induction false} BracketFree(s: string, i: nat, j: nat)
    requires i <= j <= |s| && Brackets(s) == []
    ensures Brackets(s[i..j]) == []
  {
    assert s == s[..i] + s[i..j] + s[j..];
    BracketsConcat(s[..i] + s[i..j], s[j..]);
    BracketsConcat(s[..i], s[i..j]);
  }

  /** Where a link's text and url stand in its source. */
  lemma {:induction false} LinkParts(link: Piece, s: string)
    requires link.Link? && Source(link) <= s
    ensures var t, u := |link.text|, |link.url|;
            && t + u + 3 < |s| && s[1..1 + t] == link.text && s[1 + t] == ']'
            && s[t + 3..t + 3 + u] == link.url && s[t + 3 + u] == ')'
  {
    var t, u := |link.text|, |link.url|;
    var src := Source(link);
    assert src[1..1 + t] == link.text && src[t + 3..t + 3 + u] == link.url;
    assert src == s[..|src|];
  }

  lemma {:induction false} WellFormedSlice(s: string, i: nat, j: nat)
    requires i <= j < |s| && !InWord(s[j]) && WellFormed(s, 0)
    ensures WellFormed(s[i..j], 0)
  {
    EntitiesSuffix(s, i);
    EntitiesCut(s[i..], j - i);
    assert s[i..][..j - i] == s[i..j];
    BracketFree(s, i, j);
  }

  lemma {:induction false} RenderedLink(link: Piece, s: string)
    requires link.Link? && Source(link) <= s && WellFormed(s, 0)
    ensures WellFormed(Render(link), 1)
  {
    hide WellFormed;
    var t, u := |link.text|, |link.url|;
    LinkParts(link, s);
    WellFormedSlice(s, 1, 1 + t);
    WellFormedSlice(s, t + 3, t + 3 + u);
    WrapLink(link.text, link.url);
  }

  lemma {:induction false} WrapLink(text: string, url: string)
    requires WellFormed(text, 0) && WellFormed(url, 0)
    ensures WellFormed("<" + url + "|" + text + ">", 1)
  {
    Harmless("|");
    Concat(url, 0, "|", 0);
    Opened(url, "|");
    Opened(url + "|", text);
    Closed(text, url);
  }

  lemma {:induction false} Opened(a: string, b: string)
    requires WellFormed(a, 0) && WellFormed(b, 0)
    ensures WellFormed(a + b, 0) && "<" + a + b == "<" + (a + b)
  {
    Concat(a, 0, b, 0);
  }

  lemma {:induction false} Closed(text: string, url: string)
    requires WellFormed(url + "|" + text, 0)
    ensures WellFormed("<" + url + "|" + text + ">", 1)
  {
    var inner := url + "|" + text;
    Bracketed(inner);
    assert "<" + url + "|" + text == "<" + inner;
  }

  lemma {:induction false} Bracketed(inner: string)
    requires WellFormed(inner, 0)
    ensures WellFormed("<" + inner + ">", 1)
  {
    BracketsConcat("<" + inner, ">");
    BracketsConcat("<", inner);
    assert Brackets("<") == "<" && Brackets(">") == ">";
    assert Times(1) == "<>" + Times(0);
    EntitiesConcat("<", inner);
    EntitiesConcat("<" + inner, ">");
  }

  lemma {:induction false} Around(a: string, b: string, n: nat, c: string)
    requires WellFormed(a, 0) && WellFormed(b, n) && WellFormed(c, 0)
    ensures WellFormed(a + b + c, n)
  {
    Concat(a, 0, b, n);
    Concat(a + b, n, c, 0);
  }

  lemma {:induction false} WordLength(s: string) returns (n: nat)
    requires s != [] && s[0] == '&' && Entities(s)
    ensures 4 <= n <= 5 && n <= |s| && WellFormed(s[..n], 0) && forall j | 0 <= j < n :: InWord(s[j])
  {
    assert WordAt(s, 0) && s[0..] == s;
    var word := if AMP <= s then AMP else if LT <= s then LT else GT;
    n := |word|;
    assert s[..n] == word;
    OneWord(word);
    forall j | 0 <= j < n ensures InWord(s[j]) {
      assert s[j] == word[j];
    }
  }

  lemma {:induction false} LinkCountCopies(s: string, n: nat)
    requires n <= |s| && forall j | 0 <= j < n :: LinkHere(s[j..]).None?
    ensures LinkCount(Pieces(s)) == LinkCount(Pieces(s[n..]))
  {
    if n == 0 {
      assert s[0..] == s;
    } else {
      LinkCountCopies(s, n - 1);
      OnePiece(Plain(s[n - 1]), Pieces(s[n..]));
      assert s[n - 1..][1..] == s[n..];
    }
  }

  ghost predicate Counted(s: string) { WellFormed(Linked(s), LinkCount(Pieces(s))) }

  lemma {:induction false} CountedCopy(s: string, n: nat)
    requires n <= |s| && WellFormed(s[..n], 0) && Counted(s[n..])
    requires forall j | 0 <= j < n :: LinkHere(s[j..]).None?
    ensures Counted(s)
  {
    CopyPlain(s, n);
    LinkCountCopies(s, n);
    Combine(Linked(s), LinkCount(Pieces(s)), s[..n], 0, Linked(s[n..]), LinkCount(Pieces(s[n..])));
  }

  lemma {:induction false} Combine(out: string, k: nat, a: string, m: nat, b: string, n: nat)
    requires out == a + b && k == m + n && WellFormed(a, m) && WellFormed(b, n)
    ensures WellFormed(out, k)
  {
    Concat(a, m, b, n);
  }

  lemma {:induction false} LinkCountTake(s: string)
    requires LinkHere(s).Some?
    ensures LinkCount(Pieces(s)) == 1 + LinkCount(Pieces(s[|Source(LinkHere(s).value)|..]))
  {
    OnePiece(LinkHere(s).value, Pieces(s[|Source(LinkHere(s).value)|..]));
  }

  lemma {:induction false} CountedLink(s: string, link: Piece)
    requires WellFormed(s, 0) && LinkHere(s) == Some(link) && Counted(s[|Source(link)|..])
    ensures Counted(s)
  {
    var rest := s[|Source(link)|..];
    TakeLink(s);
    RenderedLink(link, s);
    LinkCountTake(s);
    Combine(Linked(s), LinkCount(Pieces(s)), Render(link), 1, Linked(rest), LinkCount(Pieces(rest)));
  }

  /** On bracket-free text the output's brackets are exactly those of the links it converted. */
  lemma {:induction false} BracketsAreLinks(s: string)
    requires WellFormed(s, 0)
    ensures WellFormed(Linked(s), LinkCount(Pieces(s)))
    decreases |s|
  {
    if s == [] {
      Harmless([]);
    } else if LinkHere(s).Some? {
      var link := LinkHere(s).value;
      Tail(s, |Source(link)|);
      BracketsAreLinks(s[|Source(link)|..]);
      CountedLink(s, link);
    } else {
      var n := 1;
      if s[0] == '&' {
        n := WordLength(s);
        NoBracketNoLink(s, n);
      } else {
        BracketFree(s, 0, 1);
        assert s[0..1] == s[..1] == [s[0]] && s[0..] == s;
      }
      Tail(s, n);
      BracketsAreLinks(s[n..]);
      CountedCopy(s, n);
    }
  }

  lemma {:induction false} Tail(s: string, n: nat)
    requires n <= |s| && WellFormed(s, 0)
    ensures WellFormed(s[n..], 0)
  {
    EntitiesSuffix(s, n);
    BracketFree(s, n, |s|);
    assert s[n..|s|] == s[n..];
  }

  // ---- paired delimiters ----

  /** Text without the given characters. */
  function Without(s: string, d: char, wrap: char): string {
    if s == [] then [] else (if s[0] == d || s[0] == wrap then [] else [s[0]]) + Without(s[1..], d, wrap)
  }

  lemma {:induction false} WithoutPair(d: char, wrap: char, rest: string)
    ensures Without([d, d] + rest, d, wrap) == Without(rest, d, wrap) == Without([wrap] + rest, d, wrap)
  {
    assert ([d, d] + rest)[1..] == [d] + rest && ([d] + rest)[1..] == rest && ([wrap] + rest)[1..] == rest;
  }

  lemma {:induction false} WithoutHead(c: char, rest: string, d: char, wrap: char)
    ensures Without([c] + rest, d, wrap) == (if c == d || c == wrap then [] else [c]) + Without(rest, d, wrap)
  {
    assert ([c] + rest)[1..] == rest;
  }

  /** Replacing pairs touches nothing but the markers. */
  lemma {:induction false} PairsKeepText(s: string, d: char, wrap: char, k: nat)
    ensures Without(Pairs(s, d, wrap, k), d, wrap) == Without(s, d, wrap)
  {
    if s != [] {
      hide Without;
      if StartsPair(s, d) {
        var rest := Pairs(s[2..], d, wrap, if k > 0 then k - 1 else 0);
        PairsKeepText(s[2..], d, wrap, if k > 0 then k - 1 else 0);
        assert s == [d, d] + s[2..];
        WithoutPair(d, wrap, s[2..]);
        WithoutPair(d, wrap, rest);
      } else {
        PairsKeepText(s[1..], d, wrap, k);
        assert s == [s[0]] + s[1..];
        WithoutHead(s[0], s[1..], d, wrap);
        WithoutHead(s[0], Pairs(s[1..], d, wrap, k), d, wrap);
      }
    }
  }

  /** Each of the `k` replaced delimiters shortens the text by one. */
  lemma {:induction false} PairsShorten(s: string, d: char, wrap: char, k: nat)
    requires k < |Split(s, d)|
    ensures |Pairs(s, d, wrap, k)| == |s| - k
  {
    if s != [] {
      if StartsPair(s, d) {
        PairsShorten(s[2..], d, wrap, if k > 0 then k - 1 else 0);
      } else {
        PairsShorten(s[1..], d, wrap, k);
      }
    }
  }

  predicate Marker(c: char) { !InWord(c) && c != '<' && c != '>' && c != '\n' }

  lemma {:induction false} PairsKeepBrackets(s: string, d: char, wrap: char, k: nat)
    requires Marker(d) && Marker(wrap)
    ensures Brackets(Pairs(s, d, wrap, k)) == Brackets(s)
  {
    if s != [] {
      if StartsPair(s, d) {
        PairsKeepBrackets(s[2..], d, wrap, if k > 0 then k - 1 else 0);
        assert s[1..][1..] == s[2..];
        if k == 0 {
          var rest := Pairs(s[2..], d, wrap, 0);
          assert ([d, d] + rest)[1..] == [d] + rest && ([d] + rest)[1..] == rest;
        }
      } else {
        PairsKeepBrackets(s[1..], d, wrap, k);
      }
    }
  }

  lemma {:induction false} PairsKeepEntities(s: string, d: char, wrap: char, k: nat)
    requires Marker(d) && Marker(wrap) && Entities(s)
    ensures Entities(Pairs(s, d, wrap, k))
    decreases |s|
  {
    if s == [] {
    } else if StartsPair(s, d) {
      EntitiesSuffix(s, 2);
      PairsKeepEntities(s[2..], d, wrap, if k > 0 then k - 1 else 0);
      EntitiesConcat(if k > 0 then [wrap] else [d, d], Pairs(s[2..], d, wrap, if k > 0 then k - 1 else 0));
    } else if s[0] == '&' {
      var n := WordLength(s);
      PairsCopyWord(s, d, wrap, k, n);
      EntitiesSuffix(s, n);
      PairsKeepEntities(s[n..], d, wrap, k);
      EntitiesConcat(s[..n], Pairs(s[n..], d, wrap, k));
    } else {
      EntitiesSuffix(s, 1);
      PairsKeepEntities(s[1..], d, wrap, k);
      EntitiesConcat([s[0]], Pairs(s[1..], d, wrap, k));
    }
  }

  lemma {:induction false} PairsCopyWord(s: string, d: char, wrap: char, k: nat, n: nat)
    requires Marker(d) && n <= |s| && forall j | 0 <= j < n :: InWord(s[j])
    ensures Pairs(s, d, wrap, k) == s[..n] + Pairs(s[n..], d, wrap, k)
  {
    forall j | 0 <= j < n ensures Pairs(s[j..], d, wrap, k) == [s[j]] + Pairs(s[j + 1..], d, wrap, k) {
      assert s[j..][0] == s[j] && s[j..][1..] == s[j + 1..];
    }
    Copies(t => Pairs(t, d, wrap, k), s, n);
  }

  /** Prose: the brackets are exactly those of the links found in the escaped text. */
  lemma {:induction false} ProseIsWellFormed(s: string)
    ensures WellFormed(TransformProse(s), LinkCount(Pieces(Escape(s))))
  {
    hide WellFormed, Linked, Escape, PairsOf, Pieces, LinkCount;
    EscapeIsWellFormed(s);
    var a := Linked(Escape(s));
    BracketsAreLinks(Escape(s));
    PairsAreWellFormed(a, '*', '*', LinkCount(Pieces(Escape(s))));
    var b := PairsOf(a, '*', '*');
    PairsAreWellFormed(b, '_', '*', LinkCount(Pieces(Escape(s))));
    PairsAreWellFormed(PairsOf(b, '_', '*'), '~', '~', LinkCount(Pieces(Escape(s))));
  }

  lemma {:induction false} PairsAreWellFormed(s: string, d: char, wrap: char, n: nat)
    requires Marker(d) && Marker(wrap) && WellFormed(s, n)
    ensures WellFormed(PairsOf(s, d, wrap), n)
  {
    PairsKeepBrackets(s, d, wrap, Paired(s, d));
    PairsKeepEntities(s, d, wrap, Paired(s, d));
  }

  // ---- lines ----

  /** Links converted outside code spans. */
  function InlineLinks(text: string): nat
    decreases |text|
  {
    match Find(text, '`')
    case None => LinkCount(Pieces(Escape(text)))
    case Some(open) =>
      match Find(text[open + 1..], '`')
      case None => LinkCount(Pieces(Escape(text)))
      case Some(n) => LinkCount(Pieces(Escape(text[..open]))) + InlineLinks(text[open + 1..][n + 1..])
  }

  function LineLinks(line: string): nat {
    var rest := line[Indent(line)..];
    if IsThematicBreak(rest) then 0
    else if HeadingText(rest).Some? then InlineLinks(HeadingText(rest).value)
    else if BulletText(rest).Some? then InlineLinks(BulletText(rest).value)
    else InlineLinks(line)
  }

  function BodyLinks(lines: seq<string>, inFence: bool): nat {
    if lines == [] then 0
    else if IsFence(lines[0]) then BodyLinks(lines[1..], !inFence)
    else (if inFence then 0 else LineLinks(lines[0])) + BodyLinks(lines[1..], inFence)
  }

  lemma {:induction false} CodeSpan(prose: string, m: nat, code: string, rest: string, n: nat)
    requires WellFormed(prose, m) && WellFormed(code, 0) && WellFormed(rest, n)
    ensures WellFormed(prose + "`" + code + "`" + rest, m + n)
  {
    Harmless("`");
    Concat(prose, m, "`", 0);
    Concat(prose + "`", m, code, 0);
    Concat(prose + "`" + code, m, "`", 0);
    Concat(prose + "`" + code + "`", m, rest, n);
  }

  /** The text has a code span: the two positions around it. */
  predicate HasSpan(text: string) {
    Find(text, '`').Some? && Find(text[Find(text, '`').value + 1..], '`').Some?
  }

  lemma {:induction false} InlineSpan(text: string)
    requires HasSpan(text)
    ensures var open := Find(text, '`').value;
            var after := text[open + 1..];
            var n := Find(after, '`').value;
            Inline(text) == TransformProse(text[..open]) + "`" + Escape(after[..n]) + "`" + Inline(after[n + 1..])
  {
    hide TransformProse, Escape, Find;
  }

  lemma {:induction false} InlineLinksSpan(text: string)
    requires HasSpan(text)
    ensures var open := Find(text, '`').value;
            var after := text[open + 1..];
            var n := Find(after, '`').value;
            InlineLinks(text) == LinkCount(Pieces(Escape(text[..open]))) + InlineLinks(after[n + 1..])
  {
    hide Escape, Pieces, LinkCount, Find;
  }

  lemma {:induction false} InlineIsWellFormed(text: string)
    ensures WellFormed(Inline(text), InlineLinks(text))
    decreases |text|
  {
    hide Inline, InlineLinks, TransformProse, Escape, Pieces, WellFormed, Find;
    if HasSpan(text) {
      var open := Find(text, '`').value;
      var after := text[open + 1..];
      var n := Find(after, '`').value;
      InlineIsWellFormed(after[n + 1..]);
      InlineSpan(text);
      InlineLinksSpan(text);
      SpanIsWellFormed(text[..open], after[..n], Inline(after[n + 1..]), InlineLinks(after[n + 1..]));
    } else {
      InlineProse(text);
      ProseIsWellFormed(text);
    }
  }

  lemma {:induction false} InlineProse(text: string)
    requires !HasSpan(text)
    ensures Inline(text) == TransformProse(text) && InlineLinks(text) == LinkCount(Pieces(Escape(text)))
  {
    hide TransformProse, Escape, Pieces;
  }

  lemma {:induction false} SpanIsWellFormed(prose: string, code: string, rest: string, n: nat)
    requires WellFormed(rest, n)
    ensures WellFormed(TransformProse(prose) + "`" + Escape(code) + "`" + rest, LinkCount(Pieces(Escape(prose))) + n)
  {
    ProseIsWellFormed(prose);
    EscapeIsWellFormed(code);
    CodeSpan(TransformProse(prose), LinkCount(Pieces(Escape(prose))), Escape(code), rest, n);
  }

  lemma {:induction false} HeadingIsWellFormed(indent: string, text: string, n: nat)
    requires WellFormed(indent, 0) && WellFormed(text, n)
    ensures WellFormed(indent + "*" + text + "*", n)
  {
    Harmless("*");
    Concat(indent, 0, "*", 0);
    Around(indent + "*", text, n, "*");
  }

  lemma {:induction false} MarkedIsWellFormed(indent: string, mark: string, item: string, n: nat)
    requires WellFormed(indent, 0) && WellFormed(mark, 0) && WellFormed(item, n)
    ensures WellFormed(indent + mark + item, n)
  {
    hide WellFormed;
    Concat(indent, 0, mark, 0);
    Concat(indent + mark, 0, item, n);
  }

  lemma {:induction false} LineIsWellFormed(line: string)
    ensures WellFormed(ConvertLine(line), LineLinks(line))
  {
    var n := Indent(line);
    var indent, rest := line[..n], line[n..];
    Harmless(indent);
    if IsThematicBreak(rest) {
      Harmless([]);
    } else if HeadingText(rest).Some? {
      var text := HeadingText(rest).value;
      InlineIsWellFormed(text);
      HeadingIsWellFormed(indent, Inline(text), InlineLinks(text));
    } else if BulletText(rest).Some? {
      var item := BulletText(rest).value;
      InlineIsWellFormed(item);
      Harmless(BULLET);
      MarkedIsWellFormed(indent, BULLET, Inline(item), InlineLinks(item));
    } else {
      InlineIsWellFormed(line);
    }
  }

  lemma {:induction false} LinesAreWellFormed(lines: seq<string>, inFence: bool)
    ensures WellFormed(Join(ConvertLines(lines, inFence)), BodyLinks(lines, inFence))
  {
    hide ConvertLine, LineLinks, Escape, IsFence;
    if lines == [] {
      Harmless([]);
    } else {
      var head := lines[0];
      var next := if IsFence(head) then !inFence else inFence;
      LinesAreWellFormed(lines[1..], next);
      FirstLineIsWellFormed(head, inFence, ConvertLines(lines[1..], next), BodyLinks(lines[1..], next));
    }
  }

  lemma {:induction false} FirstLineIsWellFormed(head: string, inFence: bool, tail: seq<string>, n: nat)
    requires WellFormed(Join(tail), n)
    ensures IsFence(head) ==> WellFormed(Join([FENCE] + tail), n)
    ensures !IsFence(head) && inFence ==> WellFormed(Join([Escape(head)] + tail), n)
    ensures !IsFence(head) && !inFence ==> WellFormed(Join([ConvertLine(head)] + tail), LineLinks(head) + n)
  {
    hide ConvertLine, LineLinks, Escape, WellFormed, IsFence;
    Harmless(FENCE);
    JoinIsWellFormed(FENCE, 0, tail, n);
    EscapeIsWellFormed(head);
    JoinIsWellFormed(Escape(head), 0, tail, n);
    LineIsWellFormed(head);
    JoinIsWellFormed(ConvertLine(head), LineLinks(head), tail, n);
  }

  lemma {:induction false} JoinIsWellFormed(first: string, m: nat, tail: seq<string>, n: nat)
    requires WellFormed(first, m) && WellFormed(Join(tail), n)
    ensures WellFormed(Join([first] + tail), m + n)
  {
    assert ([first] + tail)[1..] == tail;
    if tail == [] {
      Concat(first, m, [], n);
      assert first + [] == first;
    } else {
      Harmless("\n");
      Concat(first, m, "\n", 0);
      Concat(first + "\n", m, Join(tail), n);
    }
  }

  /** Every output: brackets alternate, one pair per converted link, and every `&` begins an entity. */
  lemma {:induction false} OutputIsWellFormed(body: string)
    ensures Brackets(ToMrkdwn(body)) == Times(BodyLinks(Lines(body), false))
    ensures Entities(ToMrkdwn(body))
  {
    LinesAreWellFormed(Lines(body), false);
  }

  // ---- line structure ----

  lemma {:induction false} EscapeAddsNoNewline(s: string)
    requires '\n' !in s
    ensures '\n' !in Escape(s)
  {
    if s != [] { EscapeAddsNoNewline(s[1..]); }
  }

  lemma {:induction false} LinkedAddsNoNewline(s: string)
    requires '\n' !in s
    ensures '\n' !in Linked(s)
    decreases |s|
  {
    if s != [] {
      if LinkHere(s).None? {
        PlainStep(s);
        LinkedAddsNoNewline(s[1..]);
      } else {
        var link := LinkHere(s).value;
        TakeLink(s);
        LinkedAddsNoNewline(s[|Source(link)|..]);
        LinkAddsNoNewline(link, s);
      }
    }
  }

  lemma {:induction false} LinkAddsNoNewline(link: Piece, s: string)
    requires link.Link? && Source(link) <= s && '\n' !in s
    ensures '\n' !in Render(link)
  {
    var src := Source(link);
    forall c | c in src ensures c != '\n' {
      assert c in s[..|src|];
    }
    forall c | c in link.text || c in link.url ensures c in src {}
  }

  lemma {:induction false} PairsAddNoNewline(s: string, d: char, wrap: char, k: nat)
    requires '\n' !in s && wrap != '\n'
    ensures '\n' !in Pairs(s, d, wrap, k)
  {
    if s != [] {
      if StartsPair(s, d) {
        PairsAddNoNewline(s[2..], d, wrap, if k > 0 then k - 1 else 0);
      } else {
        PairsAddNoNewline(s[1..], d, wrap, k);
      }
    }
  }

  lemma {:induction false} ProseAddsNoNewline(s: string)
    requires '\n' !in s
    ensures '\n' !in TransformProse(s)
  {
    EscapeAddsNoNewline(s);
    var a := Linked(Escape(s));
    LinkedAddsNoNewline(Escape(s));
    PairsAddNoNewline(a, '*', '*', Paired(a, '*'));
    var b := PairsOf(a, '*', '*');
    PairsAddNoNewline(b, '_', '*', Paired(b, '_'));
    var c := PairsOf(b, '_', '*');
    PairsAddNoNewline(c, '~', '~', Paired(c, '~'));
  }

  lemma {:induction false} InlineAddsNoNewline(text: string)
    requires '\n' !in text
    ensures '\n' !in Inline(text)
    decreases |text|
  {
    hide TransformProse, Escape;
    var open := Find(text, '`');
    if open.None? || Find(text[open.value + 1..], '`').None? {
      ProseAddsNoNewline(text);
    } else {
      var after := text[open.value + 1..];
      var n := Find(after, '`').value;
      ProseAddsNoNewline(text[..open.value]);
      EscapeAddsNoNewline(after[..n]);
      InlineAddsNoNewline(after[n + 1..]);
    }
  }

  lemma {:induction false} TextHasNoNewline(rest: string)
    requires '\n' !in rest
    ensures HeadingText(rest).Some? ==> '\n' !in HeadingText(rest).value
    ensures BulletText(rest).Some? ==> '\n' !in BulletText(rest).value
  {
    var text := TrimEnd(if Hashes(rest) < |rest| then rest[Hashes(rest) + 1..] else []);
    forall i | 0 <= i < |text| ensures text[i] != '\n' {
      assert text[i] == rest[Hashes(rest) + 1..][i];
    }
  }

  lemma {:induction false} LineAddsNoNewline(line: string)
    requires '\n' !in line
    ensures '\n' !in ConvertLine(line)
  {
    hide Inline;
    var rest := line[Indent(line)..];
    TextHasNoNewline(rest);
    if HeadingText(rest).Some? {
      InlineAddsNoNewline(HeadingText(rest).value);
    } else if BulletText(rest).Some? {
      InlineAddsNoNewline(BulletText(rest).value);
    } else {
      InlineAddsNoNewline(line);
    }
  }

  lemma {:induction false} LinesAddNoNewline(lines: seq<string>, inFence: bool)
    requires forall i | 0 <= i < |lines| :: '\n' !in lines[i]
    ensures forall i | 0 <= i < |lines| :: '\n' !in ConvertLines(lines, inFence)[i]
  {
    if lines != [] {
      if IsFence(lines[0]) {
        LinesAddNoNewline(lines[1..], !inFence);
      } else {
        LinesAddNoNewline(lines[1..], inFence);
        EscapeAddsNoNewline(lines[0]);
        LineAddsNoNewline(lines[0]);
      }
    }
  }

  lemma {:induction false} LinesOfJoin(lines: seq<string>)
    requires lines != [] && forall i | 0 <= i < |lines| :: '\n' !in lines[i]
    ensures Lines(Join(lines)) == lines
  {
    if |lines| == 1 {
      LinesOfOne(lines[0]);
    } else {
      LinesOfJoin(lines[1..]);
      LinesOfHead(lines[0], Join(lines[1..]));
      assert lines[0] + "\n" + Join(lines[1..]) == lines[0] + ("\n" + Join(lines[1..]));
    }
  }

  lemma {:induction false} LinesOfOne(line: string)
    requires '\n' !in line
    ensures Lines(line) == [line]
  {
    if line != [] {
      assert line[0] in line && line == [line[0]] + line[1..];
      LinesOfOne(line[1..]);
    }
  }

  lemma {:induction false} LinesOfHead(line: string, rest: string)
    requires '\n' !in line
    ensures Lines(line + ("\n" + rest)) == [line] + Lines(rest)
  {
    var s := line + ("\n" + rest);
    if line == [] {
      assert s == "\n" + rest && s[1..] == rest;
    } else {
      assert s[0] == line[0] && line[0] in line && line == [line[0]] + line[1..];
      assert s[1..] == line[1..] + ("\n" + rest);
      LinesOfHead(line[1..], rest);
      assert ([line[1..]] + Lines(rest))[1..] == Lines(rest);
    }
  }

  /** The output has the body's lines, converted one by one: none is added, dropped or merged. */
  lemma {:induction false} LinesArePreserved(body: string)
    ensures Lines(ToMrkdwn(body)) == ConvertLines(Lines(body), false)
    ensures |Lines(ToMrkdwn(body))| == |Lines(body)|
  {
    LinesAddNoNewline(Lines(body), false);
    LinesOfJoin(ConvertLines(Lines(body), false));
  }

  /** Whether the line after `lines` is inside a fence. */
  function Fenced(lines: seq<string>, inFence: bool): bool {
    if lines == [] then inFence else Fenced(lines[1..], if IsFence(lines[0]) then !inFence else inFence)
  }

  lemma {:induction false} ConvertedAt(lines: seq<string>, inFence: bool, i: nat)
    requires i < |lines|
    ensures ConvertLines(lines, inFence)[i] ==
              if IsFence(lines[i]) then FENCE
              else if Fenced(lines[..i], inFence) then Escape(lines[i])
              else ConvertLine(lines[i])
  {
    hide ConvertLine, Escape, IsFence;
    if i > 0 {
      assert lines[..i][1..] == lines[1..][..i - 1];
      ConvertedAt(lines[1..], if IsFence(lines[0]) then !inFence else inFence, i - 1);
    }
  }

  /** Fenced code survives: unescaping an output line inside a fence gives back the input line. */
  lemma {:induction false} FencedLinesSurvive(body: string, i: nat)
    requires i < |Lines(body)| && Fenced(Lines(body)[..i], false) && !IsFence(Lines(body)[i])
    ensures i < |Lines(ToMrkdwn(body))| && Unescape(Lines(ToMrkdwn(body))[i]) == Lines(body)[i]
  {
    LinesArePreserved(body);
    ConvertedAt(Lines(body), false, i);
    UnescapeUndoesEscape(Lines(body)[i]);
  }
}
