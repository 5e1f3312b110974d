/** The translation as the code performs it, scan by scan, against the reference definitions. */
module MrkdwnScan {
  import opened Wrappers
  import opened Sequences
  import opened Mrkdwn

  method EscapeText(text: string) returns (out: string)
    ensures out == Escape(text)
  {
    out := [];
    for i := 0 to |text|
      invariant out + Escape(text[i..]) == Escape(text)
    {
      out := out + EscapeChar(text[i]);
      assert text[i..][1..] == text[i + 1..];
    }
  }

  // ---- links ----

  lemma {:induction false} PlainStep(s: string)
    requires s != [] && LinkHere(s).None?
    ensures Linked(s) == [s[0]] + Linked(s[1..])
  {
    var rest := Pieces(s[1..]);
    assert ([Plain(s[0])] + rest)[1..] == rest;
  }

  /** A rewriting that copies each of the first `n` characters copies them all. */
  lemma {:induction false} Copies(f: string -> string, s: string, n: nat)
    requires n <= |s| && forall j | 0 <= j < n :: f(s[j..]) == [s[j]] + f(s[j + 1..])
    ensures f(s) == s[..n] + f(s[n..])
  {
    if n == 0 {
      assert s[0..] == s;
    } else {
      var m := n - 1;
      Copies(f, s, m);
      assert s[..n] == s[..m] + [s[m]];
      Assoc(s[..m], [s[m]], f(s[n..]));
    }
  }

  /** No link begins in the first `n` characters, so they are copied. */
  lemma {:induction false} CopyPlain(s: string, n: nat)
    requires n <= |s| && forall j | 0 <= j < n :: LinkHere(s[j..]).None?
    ensures Linked(s) == s[..n] + Linked(s[n..])
  {
    forall j | 0 <= j < n ensures Linked(s[j..]) == [s[j]] + Linked(s[j + 1..]) {
      PlainStep(s[j..]);
      assert s[j..][1..] == s[j + 1..];
    }
    Copies(Linked, s, n);
  }

  lemma {:induction false} TakeLink(s: string)
    requires LinkHere(s).Some?
    ensures Linked(s) == Render(LinkHere(s).value) + Linked(s[|Source(LinkHere(s).value)|..])
  {
    var link := LinkHere(s).value;
    var rest := Pieces(s[|Source(link)|..]);
    assert ([link] + rest)[1..] == rest;
  }

  lemma {:induction false} NoBracketNoLink(s: string, n: nat)
    requires n <= |s| && '[' !in s[..n]
    ensures forall j | 0 <= j < n :: LinkHere(s[j..]).None?
  {
    forall j | 0 <= j < n ensures LinkHere(s[j..]).None? {
      assert s[j..][0] == s[..n][j];
    }
  }

  /** Without a `](`, or without a `)` after the first one, no link begins anywhere. */
  lemma {:induction false} NoneLeft(s: string)
    requires FindMid(s).None? || ')' !in s[FindMid(s).value + 2..]
    ensures Linked(s) == s
  {
    forall j | 0 <= j < |s| ensures LinkHere(s[j..]).None? {
      var t := s[j..];
      if FindMid(t).Some? {
        var m := FindMid(t).value;
        assert MidAt(s, j + m);
        var first := FindMid(s).value;
        assert t[m + 2..] == s[first + 2..][j + m - first..];
      }
    }
    CopyPlain(s, |s|);
    assert s[|s|..] == [] && Pieces([]) == [];
  }

  /** One turn of the loop: text up to a bracket that begins no link is copied with the bracket. */
  lemma {:induction false} PassBracket(out: string, s: string, open: nat)
    requires open < |s| && '[' !in s[..open] && LinkHere(s[open..]).None?
    ensures out + Linked(s) == (out + s[..open + 1]) + Linked(s[open + 1..])
  {
    NoBracketNoLink(s, open);
    CopyPlain(s, open + 1);
    Assoc(out, s[..open + 1], Linked(s[open + 1..]));
  }

  lemma {:induction false} CleanLink(s: string, mid: nat, close: nat)
    requires s != [] && s[0] == '[' && FindMid(s) == Some(mid) && Find(s[mid + 2..], ')') == Some(close)
    ensures '[' in s[1..mid] || close == 0 ==> LinkHere(s).None?
    ensures '[' !in s[1..mid] && close > 0 ==>
              LinkHere(s) == Some(Link(s[1..mid], s[mid + 2..][..close]))
              && s[|Source(LinkHere(s).value)|..] == s[mid + 2..][close + 1..]
  {
    LinkSpelling(s, mid, close);
    assert s[mid + 3 + close..] == s[mid + 2..][close + 1..];
  }

  /** Another: text up to a link is copied and the link rendered. */
  lemma {:induction false} PassLink(out: string, s: string, open: nat, link: Piece, rest: string)
    requires open < |s| && '[' !in s[..open]
    requires LinkHere(s[open..]) == Some(link) && rest == s[open..][|Source(link)|..]
    ensures out + Linked(s) == (out + s[..open] + Render(link)) + Linked(rest)
  {
    NoBracketNoLink(s, open);
    CopyPlain(s, open);
    TakeLink(s[open..]);
    Assoc(out, s[..open], Render(link) + Linked(rest));
    Assoc(out + s[..open], Render(link), Linked(rest));
  }

  /** The last: no link is left. */
  lemma {:induction false} PassRest(s: string, open: nat)
    requires open < |s| && '[' !in s[..open]
    requires FindMid(s[open..]).None? || ')' !in s[open..][FindMid(s[open..]).value + 2..]
    ensures Linked(s) == s
  {
    NoBracketNoLink(s, open);
    CopyPlain(s, open);
    NoneLeft(s[open..]);
  }

  /** A bracket, the `](` after it and the `)` after that, each searched for from the one before. */
  datatype Candidate = Candidate(open: nat, text: string, url: string, rest: string)

  method FindCandidate(s: string) returns (r: Option<Candidate>)
    ensures r.None? ==> Linked(s) == s
    ensures r.Some? ==>
              && r.value.open < |s| && s[r.value.open] == '[' && '[' !in s[..r.value.open]
              && |r.value.rest| < |s| && Classified(s[r.value.open..], r.value)
  {
    var open := Find(s, '[');
    if open.None? {
      NoBracketNoLink(s, |s|);
      CopyPlain(s, |s|);
      return None;
    }
    var from := s[open.value..];
    var mid := FindMid(from);
    if mid.None? {
      PassRest(s, open.value);
      return None;
    }
    var text, after := from[1..mid.value], from[mid.value + 2..];
    var close := Find(after, ')');
    if close.None? {
      PassRest(s, open.value);
      return None;
    }
    CleanLink(from, mid.value, close.value);
    return Some(Candidate(open.value, text, after[..close.value], after[close.value + 1..]));
  }

  /** A candidate is a link exactly when its text nests no bracket and its url is not empty. */
  ghost predicate Classified(from: string, c: Candidate) {
    if '[' in c.text || c.url == [] then LinkHere(from).None?
    else
      LinkHere(from) == Some(Link(c.text, c.url)) && c.rest == from[|Source(LinkHere(from).value)|..]
  }

  method ConvertLinks(s: string) returns (out: string)
    ensures out == Linked(s)
  {
    out := [];
    var rest := s;
    while true
      invariant out + Linked(rest) == Linked(s)
      decreases |rest|
    {
      var found := FindCandidate(rest);
      if found.None? { break; }
      var c := found.value;
      if '[' in c.text || c.url == [] {
        PassBracket(out, rest, c.open);
        out, rest := out + rest[..c.open + 1], rest[c.open + 1..];
      } else {
        PassLink(out, rest, c.open, Link(c.text, c.url), c.rest);
        out, rest := out + rest[..c.open] + ("<" + c.url + "|" + c.text + ">"), c.rest;
      }
    }
    out := out + rest;
  }

  // ---- paired delimiters ----

  /** The parts after the first, each behind `wrap` while `k` lasts and behind the delimiter after. */
  function Glue(parts: seq<string>, d: char, wrap: char, k: nat): string {
    if parts == [] then []
    else if k > 0 then [wrap] + parts[0] + Glue(parts[1..], d, wrap, k - 1)
    else [d, d] + parts[0] + Glue(parts[1..], d, wrap, 0)
  }

  lemma {:induction false} GlueIsPairs(s: string, d: char, wrap: char, k: nat)
    ensures var parts := Split(s, d); parts[0] + Glue(parts[1..], d, wrap, k) == Pairs(s, d, wrap, k)
  {
    if s != [] {
      if StartsPair(s, d) {
        GlueIsPairs(s[2..], d, wrap, if k > 0 then k - 1 else 0);
      } else {
        GlueIsPairs(s[1..], d, wrap, k);
      }
    }
  }

  lemma {:induction false} NoPairsNoChange(s: string, d: char, wrap: char)
    ensures Pairs(s, d, wrap, 0) == s
  {
    if s != [] {
      if StartsPair(s, d) {
        NoPairsNoChange(s[2..], d, wrap);
      } else {
        NoPairsNoChange(s[1..], d, wrap);
      }
    }
  }

  method ConvertPairs(s: string, d: char, wrap: char) returns (out: string)
    ensures out == PairsOf(s, d, wrap)
  {
    hide Split, Pairs;
    var parts := Split(s, d);
    var count := |parts| - 1;
    if count < 2 {
      NoPairsNoChange(s, d, wrap);
      return s;
    }
    var paired := count / 2 * 2;
    GlueIsPairs(s, d, wrap, paired);
    out := parts[0];
    for i := 0 to count
      invariant out + Glue(parts[i + 1..], d, wrap, if i < paired then paired - i else 0) == PairsOf(s, d, wrap)
    {
      assert parts[i + 1..][1..] == parts[i + 2..];
      if i < paired {
        out := out + [wrap];
      } else {
        out := out + [d, d];
      }
      out := out + parts[i + 1];
    }
    assert parts[count + 1..] == [];
  }

  method Transform(s: string) returns (out: string)
    ensures out == TransformProse(s)
  {
    out := EscapeText(s);
    out := ConvertLinks(out);
    out := ConvertPairs(out, '*', '*');
    out := ConvertPairs(out, '_', '*');
    out := ConvertPairs(out, '~', '~');
  }

  // ---- lines ----

  method ConvertInline(text: string) returns (out: string)
    ensures out == Inline(text)
  {
    hide TransformProse, Escape;
    out := [];
    var rest := text;
    while true
      invariant out + Inline(rest) == Inline(text)
      decreases |rest|
    {
      var open := Find(rest, '`');
      if open.None? { break; }
      var after := rest[open.value + 1..];
      var close := Find(after, '`');
      if close.None? { break; }
      var prose := Transform(rest[..open.value]);
      var code := EscapeText(after[..close.value]);
      var span := prose + "`" + code + "`";
      rest := after[close.value + 1..];
      Assoc(out, span, Inline(rest));
      out := out + span;
    }
    var prose := Transform(rest);
    out := out + prose;
  }

  method Convert(line: string) returns (out: string)
    ensures out == ConvertLine(line)
  {
    var indent, rest := line[..Indent(line)], line[Indent(line)..];
    if IsThematicBreak(rest) {
      return [];
    }
    var heading := HeadingText(rest);
    if heading.Some? {
      out := ConvertInline(heading.value);
      return indent + "*" + out + "*";
    }
    var item := BulletText(rest);
    if item.Some? {
      out := ConvertInline(item.value);
      return indent + BULLET + out;
    }
    out := ConvertInline(line);
  }

  method RenderBody(body: string) returns (out: string)
    ensures out == ToMrkdwn(body)
  {
    var lines := Lines(body);
    var done: seq<string> := [];
    var inFence := false;
    for i := 0 to |lines|
      invariant done + ConvertLines(lines[i..], inFence) == ConvertLines(lines, false)
    {
      assert lines[i..][1..] == lines[i + 1..];
      var line := FENCE;
      if IsFence(lines[i]) {
        inFence := !inFence;
      } else if inFence {
        line := EscapeText(lines[i]);
      } else {
        line := Convert(lines[i]);
      }
      Assoc(done, [line], ConvertLines(lines[i + 1..], inFence));
      done := done + [line];
    }
    assert done + [] == done;
    out := Join(done);
  }
}
