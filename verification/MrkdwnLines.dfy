/** What each form of Markdown becomes, given as it is written: lines first, then spans, pairs and links. */
module MrkdwnLines {
  import opened Wrappers
  import opened Sequences
  import opened Mrkdwn
  import opened MrkdwnScan
  import opened MrkdwnTheorems

  // ---- lines ----

  predicate AllSpace(s: string) { forall i | 0 <= i < |s| :: IsSpace(s[i]) }

  /** No space at either end of interest. */
  predicate StartsInk(s: string) { s != [] && !IsSpace(s[0]) }

  predicate EndsInk(s: string) { s == [] || !IsSpace(s[|s| - 1]) }

  lemma {:induction false} IndentIs(indent: string, rest: string)
    requires AllSpace(indent) && (rest == [] || StartsInk(rest))
    ensures Indent(indent + rest) == |indent|
    ensures (indent + rest)[..|indent|] == indent && (indent + rest)[|indent|..] == rest
  {
    var line, n := indent + rest, Indent(indent + rest);
    assert forall i | 0 <= i < |indent| :: line[i] == indent[i];
    assert rest != [] ==> line[|indent|] == rest[0];
  }

  lemma {:induction false} TrimEndIs(text: string, tail: string)
    requires EndsInk(text) && AllSpace(tail)
    ensures TrimEnd(text + tail) == text
  {
    if tail == [] {
      assert text + tail == text;
    } else {
      var n := |tail| - 1;
      assert (text + tail)[..|text + tail| - 1] == text + tail[..n];
      assert (text + tail)[|text + tail| - 1] == tail[n];
      TrimEndIs(text, tail[..n]);
    }
  }

  lemma {:induction false} HashesAre(hashes: string, rest: string)
    requires (forall i | 0 <= i < |hashes| :: hashes[i] == '#') && (rest == [] || rest[0] != '#')
    ensures Hashes(hashes + rest) == |hashes|
  {
    if hashes == [] {
      assert hashes + rest == rest;
    } else {
      assert (hashes + rest)[0] == hashes[0] && (hashes + rest)[1..] == hashes[1..] + rest;
      HashesAre(hashes[1..], rest);
    }
  }

  /** Three or more of one of `-`, `*` and `_`, and nothing else but space. */
  predicate Rule(line: string) {
    exists mark | mark in "-*_" :: OnlyMark(line, mark) && |Places(line, mark)| >= 3
  }

  predicate OnlyMark(line: string, mark: char) { forall i | 0 <= i < |line| :: line[i] == mark || IsSpace(line[i]) }

  function Places(line: string, c: char): set<nat> { set i: nat | i < |line| && line[i] == c }

  lemma {:induction false} CompactOf(s: string, mark: char)
    requires OnlyMark(s, mark) && !IsSpace(mark)
    ensures |Compact(s)| == |Places(s, mark)|
    ensures forall i | 0 <= i < |Compact(s)| :: Compact(s)[i] == mark
  {
    if s != [] {
      var n := |s| - 1;
      assert s == s[..n] + [s[n]];
      CompactConcat(s[..n], [s[n]]);
      CompactOf(s[..n], mark);
      forall i: nat ensures i in Places(s[..n], mark) <==> i < n && i in Places(s, mark) {
        assert i < n ==> s[..n][i] == s[i];
      }
      assert Places(s, mark) == Places(s[..n], mark) + if s[n] == mark then {n} else {};
      assert Compact([s[n]]) == if s[n] == mark then [s[n]] else [];
    } else {
      assert Places(s, mark) == {};
    }
  }

  lemma {:induction false} CompactConcat(a: string, b: string)
    ensures Compact(a + b) == Compact(a) + Compact(b)
  {
    if a == [] {
      assert a + b == b;
    } else {
      assert (a + b)[0] == a[0] && (a + b)[1..] == a[1..] + b;
      CompactConcat(a[1..], b);
    }
  }

  lemma {:induction false} CompactKeeps(s: string, i: nat)
    requires i < |s| && !IsSpace(s[i])
    ensures s[i] in Compact(s)
  {
    if i > 0 { CompactKeeps(s[1..], i - 1); }
  }

  /** A thematic break is such a line, whatever the spacing. */
  lemma {:induction false} BreakIffRule(indent: string, rest: string)
    requires AllSpace(indent)
    ensures IsThematicBreak(rest) <==> Rule(indent + rest)
  {
    var line, marks := indent + rest, Compact(rest);
    CompactConcat(indent, rest);
    SpaceCompacts(indent);
    assert Compact(line) == marks;
    if IsThematicBreak(rest) {
      var mark := marks[0];
      forall i | 0 <= i < |line| ensures line[i] == mark || IsSpace(line[i]) {
        if !IsSpace(line[i]) { CompactKeeps(line, i); }
      }
      CompactOf(line, mark);
    }
    if Rule(line) {
      var mark :| mark in "-*_" && OnlyMark(line, mark) && |Places(line, mark)| >= 3;
      CompactOf(line, mark);
    }
  }

  lemma {:induction false} SpaceCompacts(s: string)
    requires AllSpace(s)
    ensures Compact(s) == []
  {
    if s != [] { SpaceCompacts(s[1..]); }
  }

  /** A line of one repeated mark is dropped. */
  lemma {:induction false} RuleIsDropped(line: string)
    requires Rule(line)
    ensures ConvertLine(line) == []
  {
    var n := Indent(line);
    assert line == line[..n] + line[n..];
    BreakIffRule(line[..n], line[n..]);
  }

  /** One to six hashes, a space and a text: the text in bold, without its trailing space. */
  lemma {:induction false} HeadingIsBold(indent: string, hashes: string, text: string, tail: string)
    requires AllSpace(indent) && AllSpace(tail) && EndsInk(text)
    requires 1 <= |hashes| <= 6 && forall i | 0 <= i < |hashes| :: hashes[i] == '#'
    ensures ConvertLine(indent + (hashes + (" " + (text + tail)))) == indent + "*" + Inline(text) + "*"
  {
    var behind := " " + (text + tail);
    var rest := hashes + behind;
    IndentIs(indent, rest);
    HashesAre(hashes, behind);
    TrimEndIs(text, tail);
    assert rest[|hashes|] == ' ' && rest[|hashes| + 1..] == text + tail;
    assert HeadingText(rest) == Some(text);
    assert !IsThematicBreak(rest) by {
      assert Compact(rest)[0] == '#';
    }
    hide Inline, IsThematicBreak, HeadingText, Indent;
  }

  /** A bullet mark, a space and a text, if the line is not all marks: a bullet and the text. */
  lemma {:induction false} BulletIsKept(indent: string, mark: char, item: string)
    requires AllSpace(indent) && mark in "-*+" && !Rule(indent + ([mark, ' '] + item))
    ensures ConvertLine(indent + ([mark, ' '] + item)) == indent + "\U{2022} " + Inline(item)
  {
    var rest := [mark, ' '] + item;
    IndentIs(indent, rest);
    BreakIffRule(indent, rest);
    assert rest[0] == mark && rest[1] == ' ' && rest[2..] == item;
    hide Inline, IsThematicBreak, Indent, Rule;
    assert HeadingText(rest) == None;
    assert BulletText(rest) == Some(item);
  }

  /** The beginning of a heading or of a bullet item. */
  predicate Marked(rest: string) {
    || (exists n | 1 <= n <= 6 :: HashesThenSpace(rest, n))
    || (|rest| >= 2 && rest[0] in "-*+" && rest[1] == ' ')
  }

  predicate HashesThenSpace(s: string, n: nat) {
    n < |s| && s[n] == ' ' && forall i | 0 <= i < n :: s[i] == '#'
  }

  /** Any other line is converted as it stands, its indent included. */
  lemma {:induction false} OtherLinesAreProse(indent: string, rest: string)
    requires AllSpace(indent) && (rest == [] || StartsInk(rest))
    requires !Rule(indent + rest) && !Marked(rest)
    ensures ConvertLine(indent + rest) == Inline(indent + rest)
  {
    IndentIs(indent, rest);
    BreakIffRule(indent, rest);
    var n := Hashes(rest);
    AreHashes(rest);
    if 1 <= n <= 6 { assert !HashesThenSpace(rest, n); }
    hide Inline, IsThematicBreak, Indent, Rule, Hashes;
    assert HeadingText(rest) == None;
    assert BulletText(rest) == None;
  }

  lemma {:induction false} AreHashes(s: string)
    ensures forall i | 0 <= i < Hashes(s) :: s[i] == '#'
  {
    if s != [] && s[0] == '#' { AreHashes(s[1..]); }
  }

  // ---- fences ----

  /** A line whose first ink is three backticks. */
  predicate FenceLine(line: string) {
    exists n | 0 <= n <= |line| - 3 :: AllSpace(line[..n]) && line[n..n + 3] == "```"
  }

  lemma {:induction false} FenceIff(line: string)
    ensures IsFence(line) <==> FenceLine(line)
  {
    if IsFence(line) {
      var n := Indent(line);
      assert line[n..][..3] == line[n..n + 3];
      assert AllSpace(line[..n]);
    }
    if FenceLine(line) {
      var n :| 0 <= n <= |line| - 3 && AllSpace(line[..n]) && line[n..n + 3] == "```";
      assert line[n] == line[n..n + 3][0];
      IndentIs(line[..n], line[n..]);
      assert line == line[..n] + line[n..] && line[n..][..3] == line[n..n + 3];
    }
  }

  function FencesIn(lines: seq<string>): set<nat> { set i: nat | i < |lines| && FenceLine(lines[i]) }

  lemma {:induction false} OneMoreFence(lines: seq<string>)
    requires lines != []
    ensures var n := |lines| - 1; |FencesIn(lines)| == |FencesIn(lines[..n])| + if FenceLine(lines[n]) then 1 else 0
  {
    var n := |lines| - 1;
    var all, init := FencesIn(lines), FencesIn(lines[..n]);
    hide FenceLine;
    forall i: nat ensures i in init <==> i < n && i in all {
      assert i < n ==> lines[..n][i] == lines[i];
    }
    assert n in all <==> FenceLine(lines[n]);
    hide FencesIn;
    assert all == init + if n in all then {n} else {};
  }

  lemma {:induction false} FencedIffOdd(lines: seq<string>)
    ensures Fenced(lines, false) <==> |FencesIn(lines)| % 2 == 1
  {
    if lines == [] {
      assert FencesIn(lines) == {};
    } else {
      var n := |lines| - 1;
      FencedIffOdd(lines[..n]);
      FencedLast(lines, false);
      FenceIff(lines[n]);
      OneMoreFence(lines);
      hide FenceLine, FencesIn, IsFence, Fenced;
    }
  }

  lemma {:induction false} FencedLast(lines: seq<string>, inFence: bool)
    requires lines != []
    ensures var n := |lines| - 1; Fenced(lines, inFence) <==> (Fenced(lines[..n], inFence) != IsFence(lines[n]))
  {
    hide IsFence;
    if |lines| > 1 {
      var next := if IsFence(lines[0]) then !inFence else inFence;
      FencedLast(lines[1..], next);
      assert lines[1..][..|lines| - 2] == lines[..|lines| - 1][1..];
    }
  }

  /** Each output line: a bare fence, escaped code after an odd number of fences, a converted line otherwise. */
  lemma {:induction false} OutputLine(body: string, i: nat)
    requires i < |Lines(body)|
    ensures |Lines(ToMrkdwn(body))| == |Lines(body)|
    ensures var line := Lines(body)[i];
            Lines(ToMrkdwn(body))[i] ==
              if FenceLine(line) then "```"
              else if |FencesIn(Lines(body)[..i])| % 2 == 1 then Escape(line)
              else ConvertLine(line)
  {
    LinesArePreserved(body);
    ConvertedAt(Lines(body), false, i);
    FenceIff(Lines(body)[i]);
    FencedIffOdd(Lines(body)[..i]);
  }

  /** The lines are what stands between line feeds. */
  lemma {:induction false} LinesSpellBody(body: string)
    ensures Join(Lines(body)) == body
  {
    if body != [] {
      LinesSpellBody(body[1..]);
      var r := Lines(body[1..]);
      if body[0] == '\n' {
        assert Lines(body)[1..] == r;
        assert body == [] + "\n" + body[1..];
      } else {
        assert Lines(body)[1..] == r[1..];
        if |r| > 1 {
          assert [body[0]] + (r[0] + "\n" + Join(r[1..])) == ([body[0]] + r[0]) + "\n" + Join(r[1..]);
        }
      }
    }
  }

  // ---- spans ----

  lemma {:induction false} FindAt(a: string, c: char, rest: string)
    requires c !in a
    ensures Find(a + [c] + rest, c) == Some(|a|)
  {
    if a == [] {
      assert a + [c] + rest == [c] + rest;
    } else {
      FindAt(a[1..], c, rest);
      assert (a + [c] + rest)[1..] == a[1..] + [c] + rest && (a + [c] + rest)[0] == a[0] && a[0] in a;
    }
  }

  /** A code span is escaped and nothing else; what precedes it is prose. */
  lemma {:induction false} CodeSpanIsVerbatim(prose: string, code: string, rest: string)
    requires '`' !in prose && '`' !in code
    ensures Inline(prose + "`" + (code + "`" + rest)) == TransformProse(prose) + "`" + Escape(code) + "`" + Inline(rest)
  {
    var behind := code + "`" + rest;
    var text := prose + "`" + behind;
    FindAt(prose, '`', behind);
    FindAt(code, '`', rest);
    hide TransformProse, Escape, Find;
    assert text[..|prose|] == prose && text[|prose| + 1..] == behind;
    assert behind[..|code|] == code && behind[|code| + 1..] == rest;
  }

  /** With at most one backtick it is all prose. */
  lemma {:induction false} LoneBacktickIsProse(prose: string, rest: string)
    requires '`' !in prose && '`' !in rest
    ensures Inline(prose) == TransformProse(prose)
    ensures Inline(prose + "`" + rest) == TransformProse(prose + "`" + rest)
  {
    FindAt(prose, '`', rest);
    hide TransformProse;
    assert (prose + "`" + rest)[|prose| + 1..] == rest;
  }

  /** Escaping spells out the three reserved characters and keeps every other. */
  lemma {:induction false} EscapeSpells(a: string, c: char, b: string)
    ensures Escape(a + [c] + b)
         == Escape(a) + (if c == '&' then "&amp;" else if c == '<' then "&lt;" else if c == '>' then "&gt;" else [c]) + Escape(b)
    ensures Escape("") == ""
  {
    if a == [] {
      assert a + [c] + b == [c] + b && ([c] + b)[1..] == b;
    } else {
      assert (a + [c] + b)[0] == a[0] && (a + [c] + b)[1..] == a[1..] + [c] + b;
      EscapeSpells(a[1..], c, b);
      Assoc(EscapeChar(a[0]), Escape(a[1..]), EscapeChar(c));
      Assoc(EscapeChar(a[0]), Escape(a[1..]) + EscapeChar(c), Escape(b));
    }
  }

  // ---- pairs ----

  /** No two delimiters in a row, and none at the end. */
  predicate Free(part: string, d: char) {
    (forall i | 0 <= i < |part| - 1 :: !(part[i] == d && part[i + 1] == d)) && (part == [] || part[|part| - 1] != d)
  }

  predicate NoPair(part: string, d: char) { forall i | 0 <= i < |part| - 1 :: !(part[i] == d && part[i + 1] == d) }

  /** Parts as a reading from the left cuts them. */
  predicate Cut(parts: seq<string>, d: char) {
    parts != [] && (forall i | 0 <= i < |parts| - 1 :: Free(parts[i], d)) && NoPair(parts[|parts| - 1], d)
  }

  /** The parts with `wrap` in the first `k` gaps and the doubled delimiter in the others. */
  function Spelled(parts: seq<string>, d: char, wrap: char, k: nat): string
    requires parts != []
  {
    if |parts| == 1 then parts[0]
    else parts[0] + ((if k > 0 then [wrap] else [d, d]) + Spelled(parts[1..], d, wrap, if k > 0 then k - 1 else 0))
  }

  lemma {:induction false} CopyPart(part: string, d: char, wrap: char, rest: string, k: nat)
    requires Free(part, d)
    ensures Pairs(part + rest, d, wrap, k) == part + Pairs(rest, d, wrap, k)
    ensures |Split(part + rest, d)| == |Split(rest, d)|
  {
    if part == [] {
      assert part + rest == rest;
    } else {
      var s := part + rest;
      assert Free(part[1..], d);
      assert s[0] == part[0] && s[1..] == part[1..] + rest;
      assert |part| > 1 ==> s[1] == part[1];
      CopyPart(part[1..], d, wrap, rest, k);
    }
  }

  lemma {:induction false} CopyLast(part: string, d: char, wrap: char, k: nat)
    requires NoPair(part, d)
    ensures Pairs(part, d, wrap, k) == part && |Split(part, d)| == 1
  {
    if part != [] {
      CopyLast(part[1..], d, wrap, k);
      assert part == [part[0]] + part[1..];
    }
  }

  lemma {:induction false} PairsOfSpelled(parts: seq<string>, d: char, wrap: char, k: nat)
    requires Cut(parts, d)
    ensures Pairs(Spelled(parts, d, wrap, 0), d, wrap, k) == Spelled(parts, d, wrap, k)
    ensures |Split(Spelled(parts, d, wrap, 0), d)| == |parts|
  {
    if |parts| == 1 {
      CopyLast(parts[0], d, wrap, k);
    } else {
      var next := if k > 0 then k - 1 else 0;
      var rest := Spelled(parts[1..], d, wrap, 0);
      assert Cut(parts[1..], d) by {
        assert forall i | 0 <= i < |parts| - 2 :: parts[1..][i] == parts[i + 1];
      }
      PairsOfSpelled(parts[1..], d, wrap, next);
      CopyPart(parts[0], d, wrap, [d, d] + rest, k);
      assert ([d, d] + rest)[2..] == rest;
    }
  }

  /** However the text is cut at doubled delimiters, the first even number of them becomes `wrap`. */
  lemma {:induction false} FirstEvenNumberIsReplaced(parts: seq<string>, d: char, wrap: char)
    requires Cut(parts, d)
    ensures var gaps := |parts| - 1;
            PairsOf(Spelled(parts, d, wrap, 0), d, wrap) == Spelled(parts, d, wrap, if gaps % 2 == 0 then gaps else gaps - 1)
  {
    PairsOfSpelled(parts, d, wrap, Paired(Spelled(parts, d, wrap, 0), d));
  }

  /** Every text can be cut so. */
  lemma {:induction false} EveryTextIsCut(s: string, d: char, wrap: char) returns (parts: seq<string>)
    ensures Cut(parts, d) && Spelled(parts, d, wrap, 0) == s
  {
    if s == [] {
      parts := [[]];
    } else if StartsPair(s, d) {
      var rest := EveryTextIsCut(s[2..], d, wrap);
      parts := [[]] + rest;
      assert parts[1..] == rest;
      assert s == [] + ([d, d] + s[2..]);
      assert forall i | 1 <= i < |parts| - 1 :: parts[i] == rest[i - 1];
    } else {
      var rest := EveryTextIsCut(s[1..], d, wrap);
      parts := [[s[0]] + rest[0]] + rest[1..];
      StillCut(s, rest, d, wrap);
    }
  }

  lemma {:induction false} StillCut(s: string, rest: seq<string>, d: char, wrap: char)
    requires s != [] && !StartsPair(s, d) && Cut(rest, d) && Spelled(rest, d, wrap, 0) == s[1..]
    ensures var parts := [[s[0]] + rest[0]] + rest[1..]; Cut(parts, d) && Spelled(parts, d, wrap, 0) == s
  {
    var head := [s[0]] + rest[0];
    var parts := [head] + rest[1..];
    assert parts[1..] == rest[1..];
    assert rest[0] != [] ==> s[1] == rest[0][0];
    assert |rest| > 1 && rest[0] == [] ==> s[1] == d;
    assert forall i | 0 <= i < |head| - 1 && head[i] == d && head[i + 1] == d :: i > 0 && rest[0][i - 1] == d && rest[0][i] == d;
    assert NoPair(head, d);
    assert |rest| > 1 ==> Free(head, d);
    assert forall i | 1 <= i < |parts| :: parts[i] == rest[i];
    assert s == [s[0]] + s[1..];
  }

  /** Nothing with a meaning in prose. */
  predicate PlainText(s: string) { forall c | c in s :: c !in "&<>[*_~" }

  lemma {:induction false} NoneIsCut(s: string, d: char)
    requires d !in s
    ensures Free(s, d) && NoPair(s, d)
  {
    if s != [] { assert s[|s| - 1] in s; }
  }

  lemma {:induction false} NothingToReplace(s: string, d: char, wrap: char)
    requires d !in s
    ensures |Split(s, d)| == 1 && PairsOf(s, d, wrap) == s
  {
    NoneIsCut(s, d);
    CopyLast(s, d, wrap, 0);
    FirstEvenNumberIsReplaced([s], d, wrap);
  }

  lemma {:induction false} OnePairReplaced(a: string, b: string, c: string, d: char, wrap: char)
    requires d !in a && d !in b && d !in c
    ensures PairsOf(a + ([d, d] + (b + ([d, d] + c))), d, wrap) == a + ([wrap] + (b + ([wrap] + c)))
  {
    NoneIsCut(a, d);
    NoneIsCut(b, d);
    NoneIsCut(c, d);
    var parts := [a, b, c];
    FirstEvenNumberIsReplaced(parts, d, wrap);
    hide PairsOf, Free, NoPair;
    SpelledThree(a, b, c, d, wrap, 0);
    SpelledThree(a, b, c, d, wrap, 2);
  }

  lemma {:induction false} SpelledThree(a: string, b: string, c: string, d: char, wrap: char, k: nat)
    requires k == 0 || k == 2
    ensures var mark := if k == 0 then [d, d] else [wrap]; Spelled([a, b, c], d, wrap, k) == a + (mark + (b + (mark + c)))
  {
    assert [a, b, c][1..] == [b, c] && [b, c][1..] == [c];
    assert Spelled([c], d, wrap, 0) == c;
    assert k == 2 ==> Spelled([b, c], d, wrap, 1) == b + ([wrap] + c);
    assert Spelled([b, c], d, wrap, 0) == b + ([d, d] + c);
  }

  lemma {:induction false} NothingToLink(s: string)
    requires '[' !in s
    ensures Linked(s) == s
  {
    if s != [] {
      NothingToLink(s[1..]);
      assert LinkHere(s) == None;
      assert ([Plain(s[0])] + Pieces(s[1..]))[1..] == Pieces(s[1..]);
      assert s == [s[0]] + s[1..];
    }
  }

  lemma {:induction false} NothingToEscape(s: string)
    requires '&' !in s && '<' !in s && '>' !in s
    ensures Escape(s) == s
  {
    if s != [] {
      NothingToEscape(s[1..]);
      assert s == [s[0]] + s[1..];
    }
  }

  /** `**b**` and `__b__` become `*b*`, `~~b~~` becomes `~b~`, and ordinary text around and inside them is kept. */
  lemma {:induction false} EmphasisIsTranslated(a: string, b: string, c: string)
    requires PlainText(a) && PlainText(b) && PlainText(c)
    ensures TransformProse(a) == a
    ensures TransformProse(a + ("**" + (b + ("**" + c)))) == a + ("*" + (b + ("*" + c)))
    ensures TransformProse(a + ("__" + (b + ("__" + c)))) == a + ("*" + (b + ("*" + c)))
    ensures TransformProse(a + ("~~" + (b + ("~~" + c)))) == a + ("~" + (b + ("~" + c)))
  {
    OneEmphasis(a, b, c, '*', '*');
    OneEmphasis(a, b, c, '_', '*');
    OneEmphasis(a, b, c, '~', '~');
    Untouched(a);
  }

  lemma {:induction false} Untouched(s: string)
    requires PlainText(s)
    ensures TransformProse(s) == s
  {
    assert '&' !in s && '<' !in s && '>' !in s && '[' !in s && '*' !in s && '_' !in s && '~' !in s;
    hide Escape, Linked, PairsOf, PlainText;
    NothingToEscape(s);
    NothingToLink(s);
    NothingToReplace(s, '*', '*');
    NothingToReplace(s, '_', '*');
    NothingToReplace(s, '~', '~');
  }

  predicate Pass(d: char, wrap: char) { (d == '*' && wrap == '*') || (d == '_' && wrap == '*') || (d == '~' && wrap == '~') }

  lemma {:induction false} OneEmphasis(a: string, b: string, c: string, d: char, wrap: char)
    requires PlainText(a) && PlainText(b) && PlainText(c) && Pass(d, wrap)
    ensures TransformProse(a + ([d, d] + (b + ([d, d] + c)))) == a + ([wrap] + (b + ([wrap] + c)))
  {
    var s, r := a + ([d, d] + (b + ([d, d] + c))), a + ([wrap] + (b + ([wrap] + c)));
    OnlyMarks(a, b, c, [d, d], d);
    OnlyMarks(a, b, c, [wrap], wrap);
    assert d !in a && d !in b && d !in c;
    hide Escape, Linked, PairsOf, PlainText;
    NothingToEscape(s);
    NothingToLink(s);
    OnePairReplaced(a, b, c, d, wrap);
    if d != '*' { NothingToReplace(s, '*', '*'); }
    if d == '~' { NothingToReplace(s, '_', '*'); }
    if d == '*' { NothingToReplace(r, '_', '*'); }
    if d != '~' { NothingToReplace(r, '~', '~'); }
  }

  lemma {:induction false} OnlyMarks(a: string, b: string, c: string, mark: string, d: char)
    requires PlainText(a) && PlainText(b) && PlainText(c) && forall x | x in mark :: x == d
    ensures forall x | x in "&<>[*_~" && x != d :: x !in a + (mark + (b + (mark + c)))
  {
  }

  // ---- links ----

  /** The spelling of a clean link: no bracket opened in the text, and `](` and `)` not met before they end it. */
  predicate WrittenLink(s: string, text: string, url: string) {
    && "[" + text + "](" + url + ")" <= s
    && '[' !in text && ')' !in url && url != []
    && (forall j | 0 <= j < |text| :: !(text[j] == ']' && (j + 1 < |text| && text[j + 1] == '(')))
  }

  /** A link is taken exactly where one is written, with the text and url written there. */
  lemma {:induction false} LinkIffWritten(s: string, text: string, url: string)
    ensures LinkHere(s) == Some(Link(text, url)) <==> WrittenLink(s, text, url)
  {
    if WrittenLink(s, text, url) {
      WrittenIsTaken(s, text, url);
    }
    if LinkHere(s) == Some(Link(text, url)) {
      TakenIsWritten(s, text, url);
    }
  }

  lemma {:induction false} WrittenIsTaken(s: string, text: string, url: string)
    requires WrittenLink(s, text, url)
    ensures LinkHere(s) == Some(Link(text, url))
  {
    hide Find, FindMid;
    var spelled := "[" + text + "](" + url + ")";
    var m, rest := |text| + 1, s[|spelled|..];
    assert s[..|spelled|] == spelled && s == spelled + rest;
    assert s[m] == spelled[m] && s[m + 1] == spelled[m + 1];
    assert MidAt(s, m);
    forall j | 0 <= j < m ensures !MidAt(s, j) {
      assert s[j] == spelled[j] && s[j + 1] == spelled[j + 1];
      assert j > 0 ==> s[j] == text[j - 1];
      assert 0 < j < |text| ==> s[j + 1] == text[j];
    }
    assert FindMid(s) == Some(m);
    assert s[m + 2..] == url + [')'] + rest;
    FindAt(url, ')', rest);
    assert s[1..m] == text && (url + [')'] + rest)[..|url|] == url;
  }

  lemma {:induction false} TakenIsWritten(s: string, text: string, url: string)
    requires LinkHere(s) == Some(Link(text, url))
    ensures WrittenLink(s, text, url)
  {
    hide Find, FindMid;
    var m := FindMid(s).value;
    var c := Find(s[m + 2..], ')').value;
    assert text == s[1..m] && url == s[m + 2..][..c];
    LinkSpelling(s, m, c);
    assert Source(Link(text, url)) == "[" + text + "](" + url + ")";
    forall j | 0 <= j < |text| ensures !(text[j] == ']' && j + 1 < |text| && text[j + 1] == '(') {
      assert !MidAt(s, j + 1);
    }
  }
}
