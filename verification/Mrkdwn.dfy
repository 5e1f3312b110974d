/**
 Translation of GitHub-flavoured Markdown into Slack mrkdwn: entity escaping, links, paired
 emphasis, headings, bullets and fenced code. The functions are reference definitions that read
 the text left to right; the methods scan, split and join as the code does.
 */
module Mrkdwn {
  import opened Wrappers

  // ---- searching and trimming ----

  function Find(s: string, c: char): (r: Option<nat>)
    ensures r.Some? ==> r.value < |s| && s[r.value] == c && c !in s[..r.value]
    ensures r.None? ==> c !in s
  {
    if s == [] then None
    else if s[0] == c then Some(0)
    else
      match Find(s[1..], c)
      case None => None
      case Some(i) => assert s[..i + 1] == [s[0]] + s[1..][..i]; Some(i + 1)
  }

  /** The first `](`. */
  function FindMid(s: string): (r: Option<nat>)
    ensures r.Some? ==> r.value + 2 <= |s| && MidAt(s, r.value)
    ensures forall j | 0 <= j < |s| && MidAt(s, j) :: r.Some? && r.value <= j
  {
    if s == [] then None
    else if MidAt(s, 0) then Some(0)
    else
      assert forall j | 1 <= j < |s| && MidAt(s, j) :: MidAt(s[1..], j - 1);
      match FindMid(s[1..])
      case None => None
      case Some(i) => Some(i + 1)
  }

  predicate MidAt(s: string, j: nat) {
    j + 2 <= |s| && s[j] == ']' && s[j + 1] == '('
  }

  /** The Unicode White_Space characters. */
  predicate IsSpace(c: char) {
    var n := c as int;
    || 9 <= n <= 13 || n == 32 || n == 0x85 || n == 0xA0 || n == 0x1680 || 0x2000 <= n <= 0x200A
    || n == 0x2028 || n == 0x2029 || n == 0x202F || n == 0x205F || n == 0x3000
  }

  function Indent(s: string): (n: nat)
    ensures n <= |s| && (forall i | 0 <= i < n :: IsSpace(s[i])) && (n < |s| ==> !IsSpace(s[n]))
  {
    if s != [] && IsSpace(s[0]) then 1 + Indent(s[1..]) else 0
  }

  function TrimEnd(s: string): (r: string)
    ensures r <= s
  {
    if s != [] && IsSpace(s[|s| - 1]) then TrimEnd(s[..|s| - 1]) else s
  }

  // ---- escaping ----

  const AMP := "&amp;"
  const LT := "&lt;"
  const GT := "&gt;"

  function EscapeChar(c: char): string {
    if c == '&' then AMP else if c == '<' then LT else if c == '>' then GT else [c]
  }

  function Escape(s: string): string {
    if s == [] then [] else EscapeChar(s[0]) + Escape(s[1..])
  }

  /** What a reader of the entities sees. */
  function Unescape(s: string): string {
    if s == [] then []
    else if AMP <= s then "&" + Unescape(s[5..])
    else if LT <= s then "<" + Unescape(s[4..])
    else if GT <= s then ">" + Unescape(s[4..])
    else [s[0]] + Unescape(s[1..])
  }

  // ---- links ----

  datatype Piece = Plain(c: char) | Link(text: string, url: string)

  /** What a piece was written as. */
  function Source(p: Piece): string {
    match p
    case Plain(c) => [c]
    case Link(text, url) => "[" + text + "](" + url + ")"
  }

  function Render(p: Piece): string {
    match p
    case Plain(c) => [c]
    case Link(text, url) => "<" + url + "|" + text + ">"
  }

  /** The clean link the text begins with: its text nests no bracket and its url is not empty. */
  function LinkHere(s: string): (r: Option<Piece>)
    ensures r.Some? ==> r.value.Link? && Source(r.value) <= s && '[' !in r.value.text && r.value.url != []
  {
    if s == [] || s[0] != '[' then None
    else
      match FindMid(s)
      case None => None
      case Some(m) =>
        var after := s[m + 2..];
        match Find(after, ')')
        case None => None
        case Some(c) =>
          var text, url := s[1..m], after[..c];
          if '[' in text || url == [] then None
          else
            LinkSpelling(s, m, c);
            Some(Link(text, url))
  }

  lemma {:induction false} LinkSpelling(s: string, m: nat, c: nat)
    requires 1 <= m && m + 2 + c < |s| && s[0] == '[' && MidAt(s, m) && s[m + 2 + c] == ')'
    ensures Source(Link(s[1..m], s[m + 2..][..c])) == s[..m + 3 + c]
  {
    assert s[..m + 3 + c] == [s[0]] + s[1..m] + [s[m], s[m + 1]] + s[m + 2..m + 2 + c] + [s[m + 2 + c]];
  }

  /** Read from the left, taking a clean link wherever one begins. */
  function Pieces(s: string): seq<Piece>
    decreases |s|
  {
    if s == [] then []
    else
      match LinkHere(s)
      case None => [Plain(s[0])] + Pieces(s[1..])
      case Some(link) => [link] + Pieces(s[|Source(link)|..])
  }

  function SourceAll(ps: seq<Piece>): string {
    if ps == [] then [] else Source(ps[0]) + SourceAll(ps[1..])
  }

  function RenderAll(ps: seq<Piece>): string {
    if ps == [] then [] else Render(ps[0]) + RenderAll(ps[1..])
  }

  function LinkCount(ps: seq<Piece>): nat {
    if ps == [] then 0 else (if ps[0].Link? then 1 else 0) + LinkCount(ps[1..])
  }

  function Linked(s: string): string { RenderAll(Pieces(s)) }

  // ---- paired delimiters ----

  predicate StartsPair(s: string, d: char) {
    |s| >= 2 && s[0] == d && s[1] == d
  }

  /** The parts between the doubled delimiters. */
  function Split(s: string, d: char): (parts: seq<string>)
    ensures parts != []
  {
    if s == [] then [[]]
    else if StartsPair(s, d) then [[]] + Split(s[2..], d)
    else
      var parts := Split(s[1..], d);
      [[s[0]] + parts[0]] + parts[1..]
  }

  /** The first `k` doubled delimiters become `wrap`. */
  function Pairs(s: string, d: char, wrap: char, k: nat): string {
    if s == [] then []
    else if StartsPair(s, d) then
      if k > 0 then [wrap] + Pairs(s[2..], d, wrap, k - 1) else [d, d] + Pairs(s[2..], d, wrap, 0)
    else [s[0]] + Pairs(s[1..], d, wrap, k)
  }

  function Paired(s: string, d: char): nat { (|Split(s, d)| - 1) / 2 * 2 }

  function PairsOf(s: string, d: char, wrap: char): string { Pairs(s, d, wrap, Paired(s, d)) }

  function TransformProse(s: string): string {
    PairsOf(PairsOf(PairsOf(Linked(Escape(s)), '*', '*'), '_', '*'), '~', '~')
  }

  // ---- lines ----

  /** Code spans are escaped only; an unmatched backtick is prose. */
  function Inline(text: string): string
    decreases |text|
  {
    match Find(text, '`')
    case None => TransformProse(text)
    case Some(open) =>
      match Find(text[open + 1..], '`')
      case None => TransformProse(text)
      case Some(n) =>
        TransformProse(text[..open]) + "`" + Escape(text[open + 1..][..n]) + "`" + Inline(text[open + 1..][n + 1..])
  }

  function Hashes(s: string): (n: nat)
    ensures n <= |s|
  {
    if s != [] && s[0] == '#' then 1 + Hashes(s[1..]) else 0
  }

  function HeadingText(s: string): Option<string> {
    var n := Hashes(s);
    if 1 <= n <= 6 && n < |s| && s[n] == ' ' then Some(TrimEnd(s[n + 1..])) else None
  }

  function Compact(s: string): string {
    if s == [] then [] else (if IsSpace(s[0]) then [] else [s[0]]) + Compact(s[1..])
  }

  predicate IsThematicBreak(s: string) {
    var marks := Compact(s);
    |marks| >= 3 && marks[0] in "-*_" && forall i | 0 <= i < |marks| :: marks[i] == marks[0]
  }

  function BulletText(s: string): Option<string> {
    if |s| >= 2 && s[0] in "-*+" && s[1] == ' ' then Some(s[2..]) else None
  }

  const BULLET := "\U{2022} "

  function ConvertLine(line: string): string {
    var n := Indent(line);
    var indent, rest := line[..n], line[n..];
    if IsThematicBreak(rest) then []
    else match HeadingText(rest)
      case Some(text) => indent + "*" + Inline(text) + "*"
      case None =>
        match BulletText(rest)
        case Some(item) => indent + BULLET + Inline(item)
        case None => Inline(line)
  }

  const FENCE := "```"

  predicate IsFence(line: string) { FENCE <= line[Indent(line)..] }

  function ConvertLines(lines: seq<string>, inFence: bool): (r: seq<string>)
    ensures |r| == |lines|
  {
    if lines == [] then []
    else if IsFence(lines[0]) then [FENCE] + ConvertLines(lines[1..], !inFence)
    else [if inFence then Escape(lines[0]) else ConvertLine(lines[0])] + ConvertLines(lines[1..], inFence)
  }

  function Lines(s: string): (r: seq<string>)
    ensures r != []
    ensures forall i | 0 <= i < |r| :: '\n' !in r[i]
  {
    if s == [] then [[]]
    else if s[0] == '\n' then [[]] + Lines(s[1..])
    else
      var r := Lines(s[1..]);
      [[s[0]] + r[0]] + r[1..]
  }

  function Join(lines: seq<string>): string {
    if lines == [] then []
    else if |lines| == 1 then lines[0]
    else lines[0] + "\n" + Join(lines[1..])
  }

  function ToMrkdwn(body: string): string { Join(ConvertLines(Lines(body), false)) }
}
