/** markdown::Deserializer of parsers/markdown/markdown.hpp: the line-based
    block parser and the inline tokenizer.  Every std::regex the parser uses
    is restated as an explicit matcher with the ECMAScript semantics of
    libstdc++: `\s` is std::isspace, `.` is every char except '\n' and '\r',
    `\w` is [A-Za-z0-9_], and regex_match must cover the whole line. */
module MarkdownParser {
  import opened Wrappers
  import opened Chars
  import opened StdString
  import FileUtils
  import opened Markdown

  // ---------------------------------------------------------------------
  // Character classes and runs

  /** A line terminator, the chars `.` does not match. */
  predicate IsLineEnd(c: char) { c == '\n' || c == '\r' }

  /** Every char of s matches `.`. */
  predicate DotChars(s: string) { forall k :: 0 <= k < |s| ==> !IsLineEnd(s[k]) }

  datatype CharClass = Hashes | RuleMarks | Digits | WordChars

  predicate InClass(c: char, cl: CharClass) {
    match cl
    case Hashes => c == '#'
    case RuleMarks => c == '-' || c == '*' || c == '_'
    case Digits => IsDigit(c)
    case WordChars => IsAlnum(c) || c == '_'
  }

  /** The end of the longest run of chars of class cl that starts at lo. */
  function Span(s: string, lo: nat, cl: CharClass): (i: nat)
    requires lo <= |s|
    ensures lo <= i <= |s|
    ensures forall k :: lo <= k < i ==> InClass(s[k], cl)
    ensures i < |s| ==> !InClass(s[i], cl)
    decreases |s| - lo
  {
    if lo < |s| && InClass(s[lo], cl) then Span(s, lo + 1, cl) else lo
  }

  /** Where the white space at the end of s[..hi] begins. */
  function SpaceTail(s: string, hi: nat): (j: nat)
    requires hi <= |s|
    ensures j <= hi
    ensures forall k :: j <= k < hi ==> IsSpace(s[k])
    ensures j > 0 ==> !IsSpace(s[j - 1])
  {
    if hi > 0 && IsSpace(s[hi - 1]) then SpaceTail(s, hi - 1) else hi
  }

  /** The regex tail `\s+(.+)$` matched at i: at least one white-space char,
      then a non-empty rest without line terminators.  The greedy `\s+`
      takes the whole run unless nothing would be left for `(.+)`, in which
      case the group is the run's last char. */
  function SpacedRest(line: string, i: nat): (r: Option<string>)
    requires i <= |line|
    ensures r.Some? ==> r.value != [] && DotChars(r.value)
  {
    var w := SkipSpace(line, i);
    if w == i then None
    else if w < |line| then (if DotChars(line[w..]) then Some(line[w..]) else None)
    else if w - i >= 2 && !IsLineEnd(line[w - 1]) then Some([line[w - 1]])
    else None
  }

  // ---------------------------------------------------------------------
  // The line patterns of parse_block

  /** `^\s*[-*_]{3,}\s*$`. */
  predicate IsRule(line: string) {
    var a := SkipSpace(line, 0);
    var b := Span(line, a, RuleMarks);
    b - a >= 3 && SkipSpace(line, b) == |line|
  }

  /** `^(#{1,6})\s+(.+)$`: the level and the text. */
  function HeadingMatch(line: string): (r: Option<(nat, string)>)
    ensures r.Some? ==> 1 <= r.value.0 <= 6 && r.value.1 != []
  {
    var h := Span(line, 0, Hashes);
    if 1 <= h <= 6 then
      match SpacedRest(line, h)
      case None => None
      case Some(t) => Some((h, t))
    else None
  }

  /** `^```(\w*)\s*$`: the language word. */
  function FenceOpen(line: string): (r: Option<string>)
  {
    if HasPrefix(line, "```") then
      var e := Span(line, 3, WordChars);
      if SkipSpace(line, e) == |line| then Some(line[3..e]) else None
    else None
  }

  /** `^```\s*$`. */
  predicate FenceClose(line: string) {
    HasPrefix(line, "```") && SkipSpace(line, 3) == |line|
  }

  /** `^\s*>\s*(.*)$`: the quoted text. */
  function QuoteMatch(line: string): (r: Option<string>)
    ensures r.Some? ==> DotChars(r.value)
  {
    var a := SkipSpace(line, 0);
    if a < |line| && line[a] == '>' then
      var b := SkipSpace(line, a + 1);
      if DotChars(line[b..]) then Some(line[b..]) else None
    else None
  }

  /** `^(\s*)[-*+]\s+(.+)$`: the item text. */
  function BulletMatch(line: string): (r: Option<string>)
  {
    var a := SkipSpace(line, 0);
    if a < |line| && (line[a] == '-' || line[a] == '*' || line[a] == '+') then SpacedRest(line, a + 1)
    else None
  }

  /** `^(\s*)\d+\.\s+(.+)$`: the item text. */
  function NumberedMatch(line: string): (r: Option<string>)
  {
    var a := SkipSpace(line, 0);
    var d := Span(line, a, Digits);
    if a < d < |line| && line[d] == '.' then SpacedRest(line, d + 1) else None
  }

  /** One of the two list-item patterns, the bullet form tried first. */
  function ItemMatch(line: string): (r: Option<string>)
  {
    if BulletMatch(line).Some? then BulletMatch(line) else NumberedMatch(line)
  }

  /** `^\s*\|[\s\-\|]*\|\s*$`: a table separator row. */
  predicate IsSeparatorRow(line: string) {
    var a := SkipSpace(line, 0);
    var t := SpaceTail(line, |line|);
    a < |line| && line[a] == '|' && a + 1 < t && line[t - 1] == '|'
    && forall k :: a < k < t - 1 ==> IsSpace(line[k]) || line[k] == '-' || line[k] == '|'
  }

  /** `^#{1,6}\s+` matched against the whole line: hashes and white space
      only. */
  predicate IsBareHashes(line: string) {
    var h := Span(line, 0, Hashes);
    1 <= h <= 6 && h < |line| && SkipSpace(line, h) == |line|
  }

  // ---------------------------------------------------------------------
  // parse_inline

  datatype Pattern = BoldPattern | ItalicPattern | CodePattern | LinkPattern | ImagePattern

  /** The kind of node each pattern yields. */
  function PatternKind(p: Pattern): NodeType {
    match p
    case BoldPattern => Bold
    case ItalicPattern => Italic
    case CodePattern => InlineCode
    case LinkPattern => Link
    case ImagePattern => Image
  }

  /** A match of a pattern: where it starts, where it ends, and the node it
      yields. */
  datatype Token = Token(start: nat, end: nat, node: Node)

  /** The lazy `(.*?)d`: the first index at or after i where d occurs with
      no line terminator before it. */
  function LazyEnd(text: string, i: nat, d: string): (r: Option<nat>)
    requires i <= |text|
    ensures r.Some? ==> i <= r.value && OccursAt(text, d, r.value) && DotChars(text[i..r.value])
    decreases |text| - i
  {
    if OccursAt(text, d, i) then Some(i)
    else if i < |text| && !IsLineEnd(text[i]) then
      match LazyEnd(text, i + 1, d)
      case None => None
      case Some(e) => assert text[i..e] == [text[i]] + text[i + 1..e]; Some(e)
    else None
  }

  /** The node each pattern yields, and where it ends, when it matches at s:
      `\*\*(.*?)\*\*`, `\*(.*?)\*`, `` `([^`]+)` ``,
      `\[([^\]]+)\]\(([^)]+)\)` and `!\[([^\]]*)\]\(([^)]+)\)`. */
  function MatchAt(text: string, s: nat, p: Pattern): (r: Option<Token>)
    requires s <= |text|
    ensures r.Some? ==> r.value.start == s && s + 2 <= r.value.end <= |text|
    ensures r.Some? ==> r.value.node.kind == PatternKind(p)
  {
    match p
    case BoldPattern =>
      if OccursAt(text, "**", s) then
        match LazyEnd(text, s + 2, "**")
        case None => None
        case Some(e) => Some(Token(s, e + 2, Leaf(Bold, text[s + 2..e])))
      else None
    case ItalicPattern =>
      if s < |text| && text[s] == '*' then
        match LazyEnd(text, s + 1, "*")
        case None => None
        case Some(e) => Some(Token(s, e + 1, Leaf(Italic, text[s + 1..e])))
      else None
    case CodePattern =>
      if s < |text| && text[s] == '`' then
        match FindChar(text, '`', s + 1)
        case Some(e) => if e > s + 1 then Some(Token(s, e + 1, Leaf(InlineCode, text[s + 1..e]))) else None
        case None => None
      else None
    case LinkPattern =>
      if s < |text| && text[s] == '[' then
        match LinkTail(text, s + 1)
        case None => None
        case Some((b, c)) =>
          if b > s + 1 then Some(Token(s, c + 1, Node(Link, text[s + 1..b], map["href" := text[b + 2..c]], [], 0)))
          else None
      else None
    case ImagePattern =>
      if s + 1 < |text| && text[s] == '!' && text[s + 1] == '[' then
        match LinkTail(text, s + 2)
        case None => None
        case Some((b, c)) =>
          Some(Token(s, c + 1, Node(Image, "", map["alt" := text[s + 2..b], "src" := text[b + 2..c]], [], 0)))
      else None
  }

  /** `([^\]]*)\]\(([^)]+)\)` from i: the index b of the ']' that ends the
      bracketed part, and the index c of the ')' that ends the target. */
  function LinkTail(text: string, i: nat): (r: Option<(nat, nat)>)
    requires i <= |text|
    ensures r.Some? ==> i <= r.value.0 && r.value.0 + 2 < r.value.1 < |text|
    ensures r.Some? ==> text[r.value.0] == ']' && text[r.value.0 + 1] == '(' && text[r.value.1] == ')'
  {
    match FindChar(text, ']', i)
    case None => None
    case Some(b) =>
      if b + 1 < |text| && text[b + 1] == '(' then
        match FindChar(text, ')', b + 2)
        case None => None
        case Some(c) => if c > b + 2 then Some((b, c)) else None
      else None
  }

  /** std::regex_search from pos: the leftmost match. */
  function Search(text: string, pos: nat, p: Pattern): (r: Option<Token>)
    requires pos <= |text|
    ensures r.Some? ==> pos <= r.value.start <= |text| && MatchAt(text, r.value.start, p) == r
    ensures r.Some? ==> forall s :: pos <= s < r.value.start ==> MatchAt(text, s, p).None?
    ensures r.None? ==> forall s :: pos <= s <= |text| ==> MatchAt(text, s, p).None?
    decreases |text| - pos
  {
    if MatchAt(text, pos, p).Some? then MatchAt(text, pos, p)
    else if pos == |text| then None
    else Search(text, pos + 1, p)
  }

  /** The match parse_inline takes at pos: the patterns are tried in the
      fixed order bold, italic, code, link, image, each anywhere ahead. */
  function NextMatch(text: string, pos: nat): (r: Option<Token>)
    requires pos <= |text|
  {
    if Search(text, pos, BoldPattern).Some? then Search(text, pos, BoldPattern)
    else if Search(text, pos, ItalicPattern).Some? then Search(text, pos, ItalicPattern)
    else if Search(text, pos, CodePattern).Some? then Search(text, pos, CodePattern)
    else if Search(text, pos, LinkPattern).Some? then Search(text, pos, LinkPattern)
    else Search(text, pos, ImagePattern)
  }

  lemma NextMatchBounds(text: string, pos: nat)
    requires pos <= |text|
    ensures NextMatch(text, pos).Some? ==>
      pos <= NextMatch(text, pos).value.start && NextMatch(text, pos).value.start + 2 <= NextMatch(text, pos).value.end <= |text|
  {
  }

  /** The Text node flushed for text[pos..start], if that is not empty. */
  function Before(text: string, pos: nat, start: nat): seq<Node>
    requires pos <= start <= |text|
  {
    if start > pos then [Leaf(Text, text[pos..start])] else []
  }

  /** The nodes the tokenizer loop appends from pos on. */
  function Tokens(text: string, pos: nat): (r: seq<Node>)
    requires pos <= |text|
    decreases |text| - pos
  {
    if pos == |text| then []
    else
      NextMatchBounds(text, pos);
      match NextMatch(text, pos)
      case None => [Leaf(Text, text[pos..])]
      case Some(t) => Before(text, pos, t.start) + [t.node] + Tokens(text, t.end)
  }

  /** Tokens unfolded once, when no pattern matches ahead. */
  lemma TokensNone(text: string, pos: nat)
    requires pos < |text| && NextMatch(text, pos).None?
    ensures Tokens(text, pos) == [Leaf(Text, text[pos..])]
  {
  }

  /** Tokens unfolded once around the match t. */
  lemma TokensSome(text: string, pos: nat, t: Token)
    requires pos < |text| && NextMatch(text, pos) == Some(t)
    ensures pos <= t.start && t.start + 2 <= t.end <= |text|
    ensures Tokens(text, pos) == Before(text, pos, t.start) + [t.node] + Tokens(text, t.end)
  {
    NextMatchBounds(text, pos);
  }

  /** parse_inline(text, parent): the children it appends to a childless
      parent. */
  function Inline(text: string): seq<Node> {
    if text == [] then []
    else
      var r := Tokens(text, 0);
      if r == [] then [Leaf(Text, text)] else r
  }

  /** The five regex_search calls of one loop round, in their order. */
  method FindNext(text: string, pos: nat) returns (m: Option<Token>)
    requires pos <= |text|
    ensures m == NextMatch(text, pos)
  {
    m := Search(text, pos, BoldPattern);
    if m.None? {
      m := Search(text, pos, ItalicPattern);
    }
    if m.None? {
      m := Search(text, pos, CodePattern);
    }
    if m.None? {
      m := Search(text, pos, LinkPattern);
    }
    if m.None? {
      m := Search(text, pos, ImagePattern);
    }
  }

  /** One round of the tokenizer loop, on the accumulated children. */
  lemma InlineAdvance(text: string, pos: nat, t: Token, children: seq<Node>, whole: seq<Node>)
    requires pos < |text| && NextMatch(text, pos) == Some(t) && children + Tokens(text, pos) == whole
    ensures pos <= t.start && t.start + 2 <= t.end <= |text|
    ensures (children + Before(text, pos, t.start) + [t.node]) + Tokens(text, t.end) == whole
  {
    TokensSome(text, pos, t);
    var b, rest := Before(text, pos, t.start), Tokens(text, t.end);
    assert children + (b + [t.node] + rest) == (children + b + [t.node]) + rest;
  }

  method ParseInline(text: string) returns (children: seq<Node>)
    ensures children == Inline(text)
  {
    children := [];
    if text == [] {
      return;
    }
    ghost var whole := Tokens(text, 0);
    var pos := 0;
    while pos < |text|
      invariant 0 <= pos <= |text|
      invariant children + Tokens(text, pos) == whole
      decreases |text| - pos
    {
      var m := FindNext(text, pos);
      if m.None? {
        TokensNone(text, pos);
        children := children + [Leaf(Text, text[pos..])];
        pos := |text|;
      } else {
        var t := m.value;
        InlineAdvance(text, pos, t, children, whole);
        ghost var flushed := children + Before(text, pos, t.start);
        if t.start > pos {
          children := children + [Leaf(Text, text[pos..t.start])];
        }
        assert children == flushed;
        children := children + [t.node];
        pos := t.end;
      }
    }
    assert children == whole;
    if children == [] {
      children := [Leaf(Text, text)];
    }
  }

  // ---------------------------------------------------------------------
  // What the tokenizer promises

  /** Every node of ns is well-formed and has no children. */
  predicate Leaves(ns: seq<Node>) {
    forall i :: 0 <= i < |ns| ==> WellFormed(ns[i]) && ns[i].children == []
  }

  /** The nodes of ns serialized one after the other. */
  function Rendered(ns: seq<Node>, depth: nat): string
    requires Leaves(ns)
  {
    if ns == [] then "" else MarkdownOf(ns[0], depth) + Rendered(ns[1..], depth)
  }

  lemma {:induction false} RenderedAppend(a: seq<Node>, b: seq<Node>, depth: nat)
    requires Leaves(a) && Leaves(b)
    ensures Leaves(a + b) && Rendered(a + b, depth) == Rendered(a, depth) + Rendered(b, depth)
  {
    if a != [] {
      assert (a + b)[1..] == a[1..] + b;
      RenderedAppend(a[1..], b, depth);
    } else {
      assert a + b == b;
    }
  }

  /** The lazy patterns: d + content + d serializes back to the text. */
  lemma BoldText(text: string, s: nat, e: nat)
    requires s + 2 <= e && OccursAt(text, "**", s) && OccursAt(text, "**", e)
    ensures MarkdownOf(Leaf(Bold, text[s + 2..e]), 0) == text[s..e + 2]
  {
    var n := Leaf(Bold, text[s + 2..e]);
    assert Inner(n, 0, 0) == "";
    var open, body, close := text[s..s + 2], text[s + 2..e], text[e..e + 2];
    SliceJoin(text, s, s + 2, e);
    SliceJoin(text, s, e, e + 2);
    assert open == "**" && close == "**";
  }

  lemma ItalicText(text: string, s: nat, e: nat)
    requires s + 1 <= e < |text| && text[s] == '*' && text[e] == '*'
    ensures MarkdownOf(Leaf(Italic, text[s + 1..e]), 0) == text[s..e + 1]
  {
    var n := Leaf(Italic, text[s + 1..e]);
    assert Inner(n, 0, 0) == "";
    assert text[s..e + 1] == [text[s]] + text[s + 1..e] + [text[e]];
  }

  lemma CodeText(text: string, s: nat, e: nat)
    requires s + 1 <= e < |text| && text[s] == '`' && text[e] == '`'
    ensures MarkdownOf(Leaf(InlineCode, text[s + 1..e]), 0) == text[s..e + 1]
  {
    assert text[s..e + 1] == [text[s]] + text[s + 1..e] + [text[e]];
  }

  /** text[b] == ']', text[b + 1] == '(' and text[c] == ')': the tail
      "](" + target + ")" of a link or an image. */
  lemma TargetText(text: string, b: nat, c: nat)
    requires b + 2 < c < |text| && text[b] == ']' && text[b + 1] == '(' && text[c] == ')'
    ensures text[b..c + 1] == "](" + text[b + 2..c] + ")"
  {
    assert text[b..c + 1] == [text[b]] + [text[b + 1]] + text[b + 2..c] + [text[c]];
  }

  lemma LinkText(text: string, s: nat, b: nat, c: nat)
    requires s < b && b + 2 < c < |text| && text[s] == '[' && text[b] == ']' && text[b + 1] == '(' && text[c] == ')'
    ensures MarkdownOf(Node(Link, text[s + 1..b], map["href" := text[b + 2..c]], [], 0), 0) == text[s..c + 1]
  {
    TargetText(text, b, c);
    assert text[s..c + 1] == [text[s]] + text[s + 1..b] + text[b..c + 1];
  }

  lemma ImageText(text: string, s: nat, b: nat, c: nat)
    requires s + 2 <= b && b + 2 < c < |text| && text[s] == '!' && text[s + 1] == '['
    requires text[b] == ']' && text[b + 1] == '(' && text[c] == ')'
    ensures MarkdownOf(Node(Image, "", map["alt" := text[s + 2..b], "src" := text[b + 2..c]], [], 0), 0) == text[s..c + 1]
  {
    TargetText(text, b, c);
    assert text[s..c + 1] == [text[s], text[s + 1]] + text[s + 2..b] + text[b..c + 1];
  }

  lemma BoldMatch(text: string, s: nat, t: Token)
    requires s <= |text| && MatchAt(text, s, BoldPattern) == Some(t)
    ensures MarkdownOf(t.node, 0) == text[s..t.end]
  {
    var e := LazyEnd(text, s + 2, "**").value;
    assert t.node == Leaf(Bold, text[s + 2..e]) && t.end == e + 2;
    BoldText(text, s, e);
  }

  lemma ItalicMatch(text: string, s: nat, t: Token)
    requires s <= |text| && MatchAt(text, s, ItalicPattern) == Some(t)
    ensures MarkdownOf(t.node, 0) == text[s..t.end]
  {
    var e := LazyEnd(text, s + 1, "*").value;
    assert t.node == Leaf(Italic, text[s + 1..e]) && t.end == e + 1;
    assert OccursAt(text, "*", e);
    assert text[e] == "*"[0];
    ItalicText(text, s, e);
  }

  lemma CodeMatch(text: string, s: nat, t: Token)
    requires s <= |text| && MatchAt(text, s, CodePattern) == Some(t)
    ensures MarkdownOf(t.node, 0) == text[s..t.end]
  {
    var e := FindChar(text, '`', s + 1).value;
    assert t.node == Leaf(InlineCode, text[s + 1..e]) && t.end == e + 1;
    CodeText(text, s, e);
  }

  lemma LinkMatch(text: string, s: nat, t: Token)
    requires s <= |text| && MatchAt(text, s, LinkPattern) == Some(t)
    ensures MarkdownOf(t.node, 0) == text[s..t.end]
  {
    var (b, c) := LinkTail(text, s + 1).value;
    assert t.node == Node(Link, text[s + 1..b], map["href" := text[b + 2..c]], [], 0) && t.end == c + 1;
    LinkText(text, s, b, c);
  }

  lemma ImageMatch(text: string, s: nat, t: Token)
    requires s <= |text| && MatchAt(text, s, ImagePattern) == Some(t)
    ensures MarkdownOf(t.node, 0) == text[s..t.end]
  {
    var (b, c) := LinkTail(text, s + 2).value;
    assert t.node == Node(Image, "", map["alt" := text[s + 2..b], "src" := text[b + 2..c]], [], 0) && t.end == c + 1;
    ImageText(text, s, b, c);
  }

  /** A matched node is a well-formed leaf that serializes back to exactly
      the text it matched. */
  lemma MatchText(text: string, s: nat, p: Pattern, t: Token)
    requires s <= |text| && MatchAt(text, s, p) == Some(t)
    ensures WellFormed(t.node) && t.node.children == [] && MarkdownOf(t.node, 0) == text[s..t.end]
  {
    match p
    case BoldPattern => BoldMatch(text, s, t);
    case ItalicPattern => ItalicMatch(text, s, t);
    case CodePattern => CodeMatch(text, s, t);
    case LinkPattern => LinkMatch(text, s, t);
    case ImagePattern => ImageMatch(text, s, t);
  }

  lemma NextMatchText(text: string, pos: nat, t: Token)
    requires pos <= |text| && NextMatch(text, pos) == Some(t)
    ensures t.start <= |text| && WellFormed(t.node) && t.node.children == [] && MarkdownOf(t.node, 0) == text[t.start..t.end]
  {
    if Search(text, pos, BoldPattern).Some? {
      MatchText(text, t.start, BoldPattern, t);
    } else if Search(text, pos, ItalicPattern).Some? {
      MatchText(text, t.start, ItalicPattern, t);
    } else if Search(text, pos, CodePattern).Some? {
      MatchText(text, t.start, CodePattern, t);
    } else if Search(text, pos, LinkPattern).Some? {
      MatchText(text, t.start, LinkPattern, t);
    } else {
      MatchText(text, t.start, ImagePattern, t);
    }
  }

  lemma RenderedSingle(n: Node, depth: nat)
    requires WellFormed(n) && n.children == []
    ensures Leaves([n]) && Rendered([n], depth) == MarkdownOf(n, depth)
  {
    assert [n][1..] == [];
  }

  lemma RenderedBefore(text: string, pos: nat, start: nat)
    requires pos <= start <= |text|
    ensures Leaves(Before(text, pos, start)) && Rendered(Before(text, pos, start), 0) == text[pos..start]
  {
    if start > pos {
      var n := Leaf(Text, text[pos..start]);
      assert Inner(n, 0, 0) == "";
      RenderedSingle(n, 0);
    }
  }

  lemma SliceJoin(text: string, i: nat, j: nat, k: nat)
    requires i <= j <= k <= |text|
    ensures text[i..k] == text[i..j] + text[j..k]
  {
  }

  /** One round of the round trip: flushed text, the match, the rest. */
  lemma RoundTripStep(text: string, pos: nat, t: Token, rest: seq<Node>)
    requires pos <= t.start <= t.end <= |text| && Leaves(rest) && Rendered(rest, 0) == text[t.end..]
    requires WellFormed(t.node) && t.node.children == [] && MarkdownOf(t.node, 0) == text[t.start..t.end]
    ensures Leaves(Before(text, pos, t.start) + [t.node] + rest)
    ensures Rendered(Before(text, pos, t.start) + [t.node] + rest, 0) == text[pos..]
  {
    var b := Before(text, pos, t.start);
    var bt := b + [t.node];
    RenderedBefore(text, pos, t.start);
    RenderedSingle(t.node, 0);
    RenderedAppend(b, [t.node], 0);
    SliceJoin(text, pos, t.start, t.end);
    assert Rendered(bt, 0) == text[pos..t.end];
    RenderedAppend(bt, rest, 0);
    SliceJoin(text, pos, t.end, |text|);
  }

  /** The tokens are well-formed leaves, and serializing them gives back the
      text they were read from: the tokenizer drops and invents nothing. */
  lemma {:induction false} TokensRoundTrip(text: string, pos: nat)
    requires pos <= |text|
    ensures Leaves(Tokens(text, pos))
    ensures Rendered(Tokens(text, pos), 0) == text[pos..]
    ensures pos < |text| ==> Tokens(text, pos) != []
    decreases |text| - pos
  {
    if pos < |text| {
      match NextMatch(text, pos)
      case None =>
        TokensNone(text, pos);
        RenderedSingle(Leaf(Text, text[pos..]), 0);
      case Some(t) =>
        TokensSome(text, pos, t);
        NextMatchText(text, pos, t);
        TokensRoundTrip(text, t.end);
        RoundTripStep(text, pos, t, Tokens(text, t.end));
    }
  }

  /** parse_inline keeps every char of its input: the children are
      well-formed leaves that serialize back to the text. */
  lemma InlineRoundTrip(text: string)
    ensures Leaves(Inline(text))
    ensures Rendered(Inline(text), 0) == text
    ensures text != [] ==> Inline(text) == Tokens(text, 0)
  {
    TokensRoundTrip(text, 0);
  }

  // ---------------------------------------------------------------------
  // Pattern priority: link before image

  /** An image whose alt text is not empty contains a link one char later,
      so an image is only ever taken with an empty alt. */
  lemma ImageAltEmpty(text: string, pos: nat, t: Token)
    requires pos <= |text| && NextMatch(text, pos) == Some(t) && t.node.kind == Image
    ensures "alt" in t.node.attributes && t.node.attributes["alt"] == ""
  {
    NextImage(text, pos, t);
    var s := t.start;
    var b, c := ImageParts(text, s, t);
    assert MatchAt(text, s + 1, LinkPattern).None?;
    if b > s + 2 {
      LinkInsideImage(text, s, b, c);
      assert false;
    }
    assert text[s + 2..b] == [];
  }

  /** An image is taken only when no link is found ahead. */
  lemma NextImage(text: string, pos: nat, t: Token)
    requires pos <= |text| && NextMatch(text, pos) == Some(t) && t.node.kind == Image
    ensures Search(text, pos, LinkPattern).None? && Search(text, pos, ImagePattern) == Some(t)
  {
    if Search(text, pos, BoldPattern).Some? {
      assert false;
    } else if Search(text, pos, ItalicPattern).Some? {
      assert false;
    } else if Search(text, pos, CodePattern).Some? {
      assert false;
    } else if Search(text, pos, LinkPattern).Some? {
      assert false;
    }
  }

  /** The parts of an image match at s. */
  lemma ImageParts(text: string, s: nat, t: Token) returns (b: nat, c: nat)
    requires s <= |text| && MatchAt(text, s, ImagePattern) == Some(t)
    ensures s + 1 < |text| && text[s] == '!' && text[s + 1] == '['
    ensures LinkTail(text, s + 2) == Some((b, c)) && s + 2 <= b
    ensures t.node.attributes == map["alt" := text[s + 2..b], "src" := text[b + 2..c]]
  {
    b, c := LinkTail(text, s + 2).value.0, LinkTail(text, s + 2).value.1;
  }

  /** The "[alt](src)" of an image with a non-empty alt is a link. */
  lemma LinkInsideImage(text: string, s: nat, b: nat, c: nat)
    requires s + 1 < |text| && text[s + 1] == '[' && LinkTail(text, s + 2) == Some((b, c)) && b > s + 2
    ensures MatchAt(text, s + 1, LinkPattern).Some?
  {
  }

  /** Every Image the tokenizer yields has an empty alt. */
  lemma {:induction false} TokensImageAlt(text: string, pos: nat)
    requires pos <= |text|
    ensures forall i :: 0 <= i < |Tokens(text, pos)| && Tokens(text, pos)[i].kind == Image ==>
      "alt" in Tokens(text, pos)[i].attributes && Tokens(text, pos)[i].attributes["alt"] == ""
    decreases |text| - pos
  {
    if pos < |text| {
      match NextMatch(text, pos)
      case None =>
        TokensNone(text, pos);
      case Some(t) =>
        TokensSome(text, pos, t);
        TokensImageAlt(text, t.end);
        if t.node.kind == Image {
          ImageAltEmpty(text, pos, t);
        }
    }
  }

  /** No '*' and no '`' anywhere. */
  predicate NoEmphasisOrCode(text: string) {
    forall k :: 0 <= k < |text| ==> text[k] != '*' && text[k] != '`'
  }

  lemma NoEmphasisOrCodeSearch(text: string, pos: nat)
    requires pos <= |text| && NoEmphasisOrCode(text)
    ensures Search(text, pos, BoldPattern).None?
    ensures Search(text, pos, ItalicPattern).None?
    ensures Search(text, pos, CodePattern).None?
  {
    forall s | pos <= s <= |text|
      ensures MatchAt(text, s, BoldPattern).None? && MatchAt(text, s, ItalicPattern).None?
      ensures MatchAt(text, s, CodePattern).None?
    {
      assert !OccursAt(text, "**", s) by {
        if s < |text| { assert text[s] != "**"[0]; }
      }
    }
  }

  /** Text with no '*', '`' or '[' is a single Text node. */
  lemma PlainInline(text: string)
    requires text != [] && NoEmphasisOrCode(text) && forall k :: 0 <= k < |text| ==> text[k] != '['
    ensures Inline(text) == [Leaf(Text, text)]
  {
    NoEmphasisOrCodeSearch(text, 0);
    forall s | 0 <= s <= |text|
      ensures MatchAt(text, s, LinkPattern).None? && MatchAt(text, s, ImagePattern).None?
    {
      assert s + 1 < |text| ==> text[s + 1] != '[';
    }
    TokensNone(text, 0);
    assert text[0..] == text;
  }

  /** `![alt](src)` with a non-empty alt reads as the text "!" followed by a
      link: the link pattern is tried before the image pattern. */
  lemma ImageReadsAsLink(alt: string, src: string, text: string)
    requires alt != [] && src != [] && ']' !in alt && ')' !in src
    requires text == "![" + alt + "](" + src + ")" && NoEmphasisOrCode(text)
    ensures Inline(text) == [Leaf(Text, "!"), Node(Link, alt, map["href" := src], [], 0)]
  {
    var b, c := ImageLinkTail(alt, src, text);
    var link := Node(Link, alt, map["href" := src], [], 0);
    var t := Token(1, c + 1, link);
    assert MatchAt(text, 0, LinkPattern).None?;
    assert MatchAt(text, 1, LinkPattern) == Some(t);
    NoEmphasisOrCodeSearch(text, 0);
    assert Search(text, 0, LinkPattern) == Some(t);
    assert NextMatch(text, 0) == Some(t);
    TokensSome(text, 0, t);
    assert Before(text, 0, 1) == [Leaf(Text, "!")] by {
      assert text[0..1] == "!";
    }
    assert Tokens(text, c + 1) == [];
  }

  /** Where the "](" and the ")" of "![alt](src)" are. */
  lemma ImageLinkTail(alt: string, src: string, text: string) returns (b: nat, c: nat)
    requires alt != [] && src != [] && ']' !in alt && ')' !in src
    requires text == "![" + alt + "](" + src + ")"
    ensures b == 2 + |alt| && c + 1 == |text| && text[0] == '!' && text[1] == '['
    ensures LinkTail(text, 2) == Some((b, c)) && text[2..b] == alt && text[b + 2..c] == src
  {
    b := 2 + |alt|;
    c := b + 2 + |src|;
    assert text[b] == ']' && text[b + 1] == '(' && text[c] == ')' && c + 1 == |text|;
    assert forall k :: 2 <= k < b ==> text[k] == alt[k - 2];
    assert forall k :: b + 2 <= k < c ==> text[k] == src[k - b - 2];
    FindCharFirst(text, ']', 2, b);
    FindCharFirst(text, ')', b + 2, c);
    assert text[2..b] == alt && text[b + 2..c] == src;
  }

  // ---------------------------------------------------------------------
  // parse_block: the block spans and their contents

  /** The line that ends each multi-line block. */
  datatype LineTest = ClosingFence | NotItem | NoBar | ParagraphStop

  predicate Stops(line: string, test: LineTest) {
    match test
    case ClosingFence => FenceClose(line)
    case NotItem => ItemMatch(line).None?
    case NoBar => '|' !in line
    case ParagraphStop => line == [] || IsBareHashes(line)
  }

  /** The first line at or after lo that stops the block, or |lines|. */
  function FirstStop(lines: seq<string>, lo: nat, test: LineTest): (e: nat)
    requires lo <= |lines|
    ensures lo <= e <= |lines|
    ensures forall j :: lo <= j < e ==> !Stops(lines[j], test)
    ensures e < |lines| ==> Stops(lines[e], test)
    decreases |lines| - lo
  {
    if lo < |lines| && !Stops(lines[lo], test) then FirstStop(lines, lo + 1, test) else lo
  }

  lemma {:induction false} FirstStopAt(lines: seq<string>, lo: nat, e: nat, test: LineTest)
    requires lo <= e <= |lines|
    requires forall j :: lo <= j < e ==> !Stops(lines[j], test)
    requires e < |lines| ==> Stops(lines[e], test)
    ensures FirstStop(lines, lo, test) == e
    decreases e - lo
  {
    if lo < e {
      FirstStopAt(lines, lo + 1, e, test);
    }
  }

  /** The code text after one more line: a "\n" goes in front of the line
      only once something has been written (the stream's tellp() > 0), so
      leading empty lines leave no trace. */
  function AppendCodeLine(acc: string, line: string): string {
    if |acc| > 0 then acc + "\n" + line else acc + line
  }

  /** The code text of lines[lo..k]. */
  function FencedText(lines: seq<string>, lo: nat, k: nat): string
    requires lo <= k <= |lines|
    decreases k
  {
    if k == lo then "" else AppendCodeLine(FencedText(lines, lo, k - 1), lines[k - 1])
  }

  /** The paragraph text of lines[lo..k], joined with single spaces. */
  function Joined(lines: seq<string>, lo: nat, k: nat): string
    requires lo < k <= |lines|
    decreases k
  {
    if k == lo + 1 then lines[lo] else Joined(lines, lo, k - 1) + (" " + lines[k - 1])
  }

  /** A list item: flagged ordered="true" in an ordered list, its text parsed
      inline. */
  function Item(text: string, ordered: bool): Node {
    Node(ListItem, "", if ordered then map["ordered" := "true"] else map[], Inline(text), 0)
  }

  /** The item text of a list line. */
  function ItemText(line: string): string {
    if ItemMatch(line).Some? then ItemMatch(line).value else ""
  }

  /** The items of lines[lo..k], one per line. */
  function Items(lines: seq<string>, lo: nat, k: nat, ordered: bool): (r: seq<Node>)
    requires lo <= k <= |lines|
    ensures |r| == k - lo
  {
    ItemsOf(ItemTexts(lines, lo, k), ordered)
  }

  /** The item texts of lines[lo..k]. */
  function ItemTexts(lines: seq<string>, lo: nat, k: nat): (r: seq<string>)
    requires lo <= k <= |lines|
    ensures |r| == k - lo
  {
    seq(k - lo, i requires 0 <= i < k - lo => ItemText(lines[lo + i]))
  }

  /** One list item per text. */
  function ItemsOf(texts: seq<string>, ordered: bool): (r: seq<Node>)
    ensures |r| == |texts|
  {
    seq(|texts|, i requires 0 <= i < |texts| => Item(texts[i], ordered))
  }

  lemma ItemTextsAppend(lines: seq<string>, lo: nat, e: nat)
    requires lo <= e < |lines|
    ensures ItemTexts(lines, lo, e + 1) == ItemTexts(lines, lo, e) + [ItemText(lines[e])]
  {
    var a, b := ItemTexts(lines, lo, e + 1), ItemTexts(lines, lo, e) + [ItemText(lines[e])];
    forall j | 0 <= j < |a| ensures a[j] == b[j] {
    }
  }

  lemma ItemsOfAppend(texts: seq<string>, text: string, ordered: bool)
    ensures ItemsOf(texts + [text], ordered) == ItemsOf(texts, ordered) + [Item(text, ordered)]
  {
    var a, b := ItemsOf(texts + [text], ordered), ItemsOf(texts, ordered) + [Item(text, ordered)];
    forall j | 0 <= j < |a| ensures a[j] == b[j] {
      if j < |texts| {
        assert (texts + [text])[j] == texts[j];
      }
    }
  }

  /** The cell for the raw text after a '|': trimmed of spaces and tabs, and
      dropped only when it is empty and the first match of the line (the
      iterator still equals a fresh one only before its first increment,
      which adds match_prev_avail to its flags). */
  function CellAt(raw: string, index: nat): seq<Node> {
    var content := FileUtils.Strip(raw, {' ', '\t'});
    if content != [] || index > 0 then [Node(TableCell, "", map[], Inline(content), 0)] else []
  }

  /** The cells of the `\|([^|]*)` matches from p on (p at a '|', or at
      the end); index counts the matches before p. */
  function CellsFrom(line: string, p: nat, index: nat): seq<Node>
    requires p <= |line| && (p < |line| ==> line[p] == '|')
    decreases |line| - p
  {
    if p == |line| then []
    else
      var e := ScanUntil(line, p + 1, {'|'});
      CellAt(line[p + 1..e], index) + CellsFrom(line, e, index + 1)
  }

  /** The cells of a table line. */
  function Cells(line: string): seq<Node> {
    CellsFrom(line, ScanUntil(line, 0, {'|'}), 0)
  }

  /** The row a table line contributes: none for a separator line or a line
      without cells. */
  function RowOf(line: string): seq<Node> {
    if IsSeparatorRow(line) then []
    else
      var cells := Cells(line);
      if cells == [] then [] else [Node(TableRow, "", map[], cells, 0)]
  }

  /** The rows of lines[lo..k]. */
  function Rows(lines: seq<string>, lo: nat, k: nat): seq<Node>
    requires lo <= k <= |lines|
    decreases k
  {
    if k == lo then [] else Rows(lines, lo, k - 1) + RowOf(lines[k - 1])
  }

  /** What one parse_block call appends to the parent, and the line it
      leaves pos at. */
  datatype Step = Step(nodes: seq<Node>, next: nat)

  /** parse_block(lines, pos, parent) for pos < |lines|: the kinds are tried
      in the fixed order blank, rule, heading, fence, quote, list, table,
      paragraph. */
  function Block(lines: seq<string>, pos: nat): (r: Step)
    requires pos < |lines|
    ensures pos < r.next <= |lines| && |r.nodes| <= 1
  {
    var line := lines[pos];
    if line == [] then Step([], pos + 1)
    else if IsRule(line) then Step([Empty(HorizontalRule)], pos + 1)
    else if HeadingMatch(line).Some? then
      var (level, text) := HeadingMatch(line).value;
      Step([Node(Heading, text, map[], [], level)], pos + 1)
    else if FenceOpen(line).Some? then
      var language := FenceOpen(line).value;
      var e := FirstStop(lines, pos + 1, ClosingFence);
      Step([CodeNode(FencedText(lines, pos + 1, e), language)], if e < |lines| then e + 1 else e)
    else if QuoteMatch(line).Some? then
      Step([Node(Quote, "", map[], Inline(QuoteMatch(line).value), 0)], pos + 1)
    else if ItemMatch(line).Some? then
      var e := FirstStop(lines, pos, NotItem);
      Step([Node(List, "", map[], Items(lines, pos, e, NumberedMatch(line).Some?), 0)], e)
    else if '|' in line then
      var e := FirstStop(lines, pos, NoBar);
      Step([Node(Table, "", map[], Rows(lines, pos, e), 0)], e)
    else
      var e := FirstStop(lines, pos + 1, ParagraphStop);
      Step([Node(Paragraph, "", map[], Inline(Joined(lines, pos, e)), 0)], e)
  }

  /** A code block, with a language attribute only when the word is not
      empty. */
  function CodeNode(text: string, language: string): Node {
    Node(CodeBlock, text, if language == [] then map[] else map["language" := language], [], 0)
  }

  /** The blocks parsed from pos on. */
  function Blocks(lines: seq<string>, pos: nat): seq<Node>
    requires pos <= |lines|
    decreases |lines| - pos
  {
    if pos == |lines| then [] else Block(lines, pos).nodes + Blocks(lines, Block(lines, pos).next)
  }

  /** The lines std::getline reads from the input. */
  function Lines(markdown: string): seq<string> {
    FileUtils.Pieces(markdown, '\n')
  }

  /** Deserializer::deserialize. */
  function Deserialized(markdown: string): Node {
    Node(Document, "", map[], Blocks(Lines(markdown), 0), 0)
  }

  // ---------------------------------------------------------------------
  // parse_block and deserialize, as the source runs them

  /** The code loop: lines up to the closing fence, or to the end. */
  method ReadCode(lines: seq<string>, lo: nat) returns (text: string, e: nat)
    requires lo <= |lines|
    ensures e == FirstStop(lines, lo, ClosingFence)
    ensures text == FencedText(lines, lo, e)
  {
    text := "";
    e := lo;
    while e < |lines| && !FenceClose(lines[e])
      invariant lo <= e <= |lines|
      invariant FirstStop(lines, e, ClosingFence) == FirstStop(lines, lo, ClosingFence)
      invariant text == FencedText(lines, lo, e)
    {
      if |text| > 0 {
        text := text + "\n";
      }
      text := text + lines[e];
      e := e + 1;
    }
  }

  /** The list loop's state after the lines lo..e: no line so far stops
      the list, and the items are those of the lines read. */
  predicate ItemsRead(lines: seq<string>, lo: nat, e: nat, ordered: bool, items: seq<Node>) {
    lo <= e <= |lines| && FirstStop(lines, e, NotItem) == FirstStop(lines, lo, NotItem)
    && items == Items(lines, lo, e, ordered)
  }

  /** One round of the list loop, on the accumulated items. */
  lemma ItemsAdvance(lines: seq<string>, lo: nat, e: nat, ordered: bool, text: string, items: seq<Node>)
    requires ItemsRead(lines, lo, e, ordered, items) && e < |lines| && ItemMatch(lines[e]) == Some(text)
    ensures ItemsRead(lines, lo, e + 1, ordered, items + [Item(text, ordered)])
  {
    var texts := ItemTexts(lines, lo, e);
    ItemTextsAppend(lines, lo, e);
    ItemsOfAppend(texts, text, ordered);
  }

  /** The list loop stops at the first line that is not an item. */
  lemma ItemsDone(lines: seq<string>, lo: nat, e: nat, ordered: bool, items: seq<Node>)
    requires ItemsRead(lines, lo, e, ordered, items) && (e == |lines| || ItemMatch(lines[e]).None?)
    ensures e == FirstStop(lines, lo, NotItem) && items == Items(lines, lo, e, ordered)
  {
  }

  /** The list loop: consecutive item lines from lo on. */
  method ReadItems(lines: seq<string>, lo: nat, ordered: bool) returns (items: seq<Node>, e: nat)
    requires lo <= |lines|
    ensures e == FirstStop(lines, lo, NotItem)
    ensures items == Items(lines, lo, e, ordered)
  {
    items := [];
    e := lo;
    while e < |lines| && ItemMatch(lines[e]).Some?
      invariant ItemsRead(lines, lo, e, ordered, items)
      decreases |lines| - e
    {
      var text := ItemMatch(lines[e]).value;
      var item := ReadItem(text, ordered);
      ItemsAdvance(lines, lo, e, ordered, text, items);
      items := items + [item];
      e := e + 1;
    }
    ItemsDone(lines, lo, e, ordered, items);
  }

  /** One list item: the ordered flag set before its text is parsed. */
  method ReadItem(text: string, ordered: bool) returns (item: Node)
    ensures item == Item(text, ordered)
  {
    item := Empty(ListItem);
    if ordered {
      item := item.(attributes := item.attributes["ordered" := "true"]);
    }
    var children := ParseInline(text);
    item := item.(children := children);
  }

  /** One match of the cell loop, on the accumulated cells. */
  lemma CellsAdvance(line: string, p: nat, index: nat, e: nat, here: seq<Node>, cells: seq<Node>, whole: seq<Node>)
    requires p < |line| && line[p] == '|' && e == ScanUntil(line, p + 1, {'|'})
    requires here == CellAt(line[p + 1..e], index) && cells + CellsFrom(line, p, index) == whole
    ensures (cells + here) + CellsFrom(line, e, index + 1) == whole
  {
    var rest := CellsFrom(line, e, index + 1);
    assert CellsFrom(line, p, index) == here + rest;
    assert cells + (here + rest) == (cells + here) + rest;
  }

  /** The cell loop over the `\|([^|]*)` matches of one line. */
  method ReadCells(line: string) returns (cells: seq<Node>)
    ensures cells == Cells(line)
  {
    cells := [];
    ghost var whole := Cells(line);
    var p := ScanUntil(line, 0, {'|'});
    var index := 0;
    while p < |line|
      invariant p <= |line| && (p < |line| ==> line[p] == '|')
      invariant cells + CellsFrom(line, p, index) == whole
      decreases |line| - p
    {
      var e := ScanUntil(line, p + 1, {'|'});
      var content := FileUtils.Strip(line[p + 1..e], {' ', '\t'});
      var here := [];
      if content != [] || index > 0 {
        var children := ParseInline(content);
        here := [Node(TableCell, "", map[], children, 0)];
      }
      CellsAdvance(line, p, index, e, here, cells, whole);
      cells := cells + here;
      index := index + 1;
      p := e;
    }
    assert CellsFrom(line, p, index) == [];
  }

  /** The table loop: consecutive lines with a '|' from lo on. */
  method ReadRows(lines: seq<string>, lo: nat) returns (rows: seq<Node>, e: nat)
    requires lo <= |lines|
    ensures e == FirstStop(lines, lo, NoBar)
    ensures rows == Rows(lines, lo, e)
  {
    rows := [];
    e := lo;
    while e < |lines| && '|' in lines[e]
      invariant RowsRead(lines, lo, e, rows)
      decreases |lines| - e
    {
      var row := ReadRow(lines[e]);
      RowsAdvance(lines, lo, e, rows, row);
      rows := rows + row;
      e := e + 1;
    }
    RowsDone(lines, lo, e, rows);
  }

  /** The table loop's invariant: rows holds the rows of lines[lo..e], and
      every line before e has a '|'. */
  predicate RowsRead(lines: seq<string>, lo: nat, e: nat, rows: seq<Node>) {
    lo <= e <= |lines| && FirstStop(lines, e, NoBar) == FirstStop(lines, lo, NoBar) && rows == Rows(lines, lo, e)
  }

  /** One round of the table loop, on the accumulated rows. */
  lemma RowsAdvance(lines: seq<string>, lo: nat, e: nat, rows: seq<Node>, row: seq<Node>)
    requires RowsRead(lines, lo, e, rows) && e < |lines| && '|' in lines[e] && row == RowOf(lines[e])
    ensures RowsRead(lines, lo, e + 1, rows + row)
  {
  }

  /** The table loop stops at the first line without a '|'. */
  lemma RowsDone(lines: seq<string>, lo: nat, e: nat, rows: seq<Node>)
    requires RowsRead(lines, lo, e, rows) && !(e < |lines| && '|' in lines[e])
    ensures e == FirstStop(lines, lo, NoBar) && rows == Rows(lines, lo, e)
  {
  }

  /** The row of one table line: none for a separator line or a line
      without cells. */
  method ReadRow(line: string) returns (row: seq<Node>)
    ensures row == RowOf(line)
  {
    row := [];
    if !IsSeparatorRow(line) {
      var cells := ReadCells(line);
      if cells != [] {
        row := [Node(TableRow, "", map[], cells, 0)];
      }
    }
  }



  /** The paragraph loop: lines[lo] and the lines after it up to an empty
      line or a heading marker. */
  method ReadParagraph(lines: seq<string>, lo: nat) returns (text: string, e: nat)
    requires lo < |lines|
    ensures e == FirstStop(lines, lo + 1, ParagraphStop)
    ensures text == Joined(lines, lo, e)
  {
    text := lines[lo];
    e := lo + 1;
    while e < |lines| && lines[e] != [] && !IsBareHashes(lines[e])
      invariant lo < e <= |lines|
      invariant FirstStop(lines, e, ParagraphStop) == FirstStop(lines, lo + 1, ParagraphStop)
      invariant text == Joined(lines, lo, e)
    {
      text := text + (" " + lines[e]);
      e := e + 1;
    }
  }

  /** parse_block(lines, pos, parent): the parent comes back with the new
      block appended. */
  method ParseBlock(lines: seq<string>, pos: nat, parent: Node) returns (next: nat, result: Node)
    ensures pos >= |lines| ==> next == pos && result == parent
    ensures pos < |lines| ==> next == Block(lines, pos).next
                              && result == parent.(children := parent.children + Block(lines, pos).nodes)
  {
    next, result := pos, parent;
    if pos >= |lines| {
      return;
    }
    var line := lines[pos];
    if line == [] {
      next := pos + 1;
      return;
    }
    if IsRule(line) {
      result := parent.(children := parent.children + [Empty(HorizontalRule)]);
      next := pos + 1;
      return;
    }
    var heading := HeadingMatch(line);
    if heading.Some? {
      var (level, text) := heading.value;
      result := parent.(children := parent.children + [Node(Heading, text, map[], [], level)]);
      next := pos + 1;
      return;
    }
    var fence := FenceOpen(line);
    if fence.Some? {
      var language := fence.value;
      var text, e := ReadCode(lines, pos + 1);
      next := if e < |lines| then e + 1 else e;
      var code := Node(CodeBlock, text, map[], [], 0);
      if language != [] {
        code := code.(attributes := code.attributes["language" := language]);
      }
      result := parent.(children := parent.children + [code]);
      return;
    }
    var quote := QuoteMatch(line);
    if quote.Some? {
      var children := ParseInline(quote.value);
      result := parent.(children := parent.children + [Node(Quote, "", map[], children, 0)]);
      next := pos + 1;
      return;
    }
    if ItemMatch(line).Some? {
      var ordered := NumberedMatch(line).Some?;
      var items, e := ReadItems(lines, pos, ordered);
      result := parent.(children := parent.children + [Node(List, "", map[], items, 0)]);
      next := e;
      return;
    }
    if '|' in line {
      var rows, e := ReadRows(lines, pos);
      result := parent.(children := parent.children + [Node(Table, "", map[], rows, 0)]);
      next := e;
      return;
    }
    var text, e := ReadParagraph(lines, pos);
    var children := ParseInline(text);
    result := parent.(children := parent.children + [Node(Paragraph, "", map[], children, 0)]);
    next := e;
  }

  /** The getline loop: the text between '\n's, a final '\n' ending the
      last line rather than opening an empty one. */
  method ReadLines(markdown: string) returns (lines: seq<string>)
    ensures lines == Lines(markdown)
  {
    lines := [];
    var start, i := 0, 0;
    while i < |markdown|
      invariant 0 <= start <= i <= |markdown|
      invariant start == 0 || markdown[start - 1] == '\n'
      invariant forall k :: start <= k < i ==> markdown[k] != '\n'
      invariant lines == FileUtils.Pieces(markdown[..start], '\n')
    {
      if markdown[i] == '\n' {
        FileUtils.SplitStep(markdown, start, i, '\n');
        lines := lines + [markdown[start..i]];
        start := i + 1;
      }
      i := i + 1;
    }
    FileUtils.SplitEnd(markdown, start, '\n');
    if start < |markdown| {
      lines := lines + [markdown[start..]];
    } else {
      assert markdown[..start] == markdown;
    }
  }

  /** Blocks unfolded once, around the step b. */
  lemma BlocksUnfold(lines: seq<string>, pos: nat, b: Step)
    requires pos < |lines| && b == Block(lines, pos)
    ensures pos < b.next <= |lines| && Blocks(lines, pos) == b.nodes + Blocks(lines, b.next)
  {
  }

  /** Reading from pos: the block made there, then what reading from next
      gives. */
  lemma BlocksStep(lines: seq<string>, pos: nat, nodes: seq<Node>, next: nat)
    requires pos < |lines| && Block(lines, pos) == Step(nodes, next)
    ensures pos < next <= |lines| && Blocks(lines, pos) == nodes + Blocks(lines, next)
  {
  }

  /** One parse_block call of the deserialize loop, making the step b. */
  lemma DeserializeAdvance(lines: seq<string>, pos: nat, b: Step, children: seq<Node>, whole: seq<Node>)
    requires pos < |lines| && b == Block(lines, pos) && children + Blocks(lines, pos) == whole
    ensures pos < b.next <= |lines| && (children + b.nodes) + Blocks(lines, b.next) == whole
  {
    BlocksUnfold(lines, pos, b);
    var rest := Blocks(lines, b.next);
    assert children + (b.nodes + rest) == (children + b.nodes) + rest;
  }

  /** Deserializer::deserialize. */
  method Deserialize(markdown: string) returns (document: Node)
    ensures document == Deserialized(markdown)
  {
    var lines := ReadLines(markdown);
    ghost var whole := Blocks(lines, 0);
    document := Empty(Document);
    var pos := 0;
    while pos < |lines|
      invariant pos <= |lines|
      invariant document == Node(Document, "", map[], document.children, 0)
      invariant document.children + Blocks(lines, pos) == whole
      decreases |lines| - pos
    {
      ghost var b := Block(lines, pos);
      DeserializeAdvance(lines, pos, b, document.children, whole);
      var next, result := ParseBlock(lines, pos, document);
      pos, document := next, result;
    }
    assert Blocks(lines, pos) == [];
  }

  // ---------------------------------------------------------------------
  // What the block parser promises

  /** Inline children are well-formed leaves. */
  lemma InlineWellFormed(text: string)
    ensures forall i :: 0 <= i < |Inline(text)| ==> WellFormed(Inline(text)[i]) && Inline(text)[i].children == []
  {
    InlineRoundTrip(text);
  }

  lemma ItemWellFormed(text: string, ordered: bool)
    ensures var item := Item(text, ordered);
      item.kind == ListItem && (IsOrderedItem(item) <==> ordered) && WellFormed(item)
  {
    InlineWellFormed(text);
  }

  /** The items of a list: one per line, all carrying the same ordered
      flag. */
  lemma ItemsShape(lines: seq<string>, lo: nat, k: nat, ordered: bool)
    requires lo <= k <= |lines|
    ensures var items := Items(lines, lo, k, ordered);
      |items| == k - lo
      && forall i :: 0 <= i < |items| ==>
           items[i].kind == ListItem && (IsOrderedItem(items[i]) <==> ordered) && WellFormed(items[i])
           && items[i].children == Inline(ItemText(lines[lo + i]))
  {
    var texts := ItemTexts(lines, lo, k);
    var items := ItemsOf(texts, ordered);
    forall i | 0 <= i < |items|
      ensures items[i].kind == ListItem && (IsOrderedItem(items[i]) <==> ordered) && WellFormed(items[i])
      ensures items[i].children == Inline(ItemText(lines[lo + i]))
    {
      var text := texts[i];
      assert text == ItemText(lines[lo + i]);
      assert items[i] == Item(text, ordered);
      ItemWellFormed(text, ordered);
    }
  }

  /** Every cell is a well-formed TableCell. */
  lemma {:induction false} CellsShape(line: string, p: nat, index: nat)
    requires p <= |line| && (p < |line| ==> line[p] == '|')
    ensures forall i :: 0 <= i < |CellsFrom(line, p, index)| ==>
      CellsFrom(line, p, index)[i].kind == TableCell && WellFormed(CellsFrom(line, p, index)[i])
    decreases |line| - p
  {
    if p < |line| {
      var e := ScanUntil(line, p + 1, {'|'});
      CellsShape(line, e, index + 1);
      InlineWellFormed(FileUtils.Strip(line[p + 1..e], {' ', '\t'}));
    }
  }

  /** Every row is a well-formed TableRow with at least one cell. */
  lemma {:induction false} RowsShape(lines: seq<string>, lo: nat, k: nat)
    requires lo <= k <= |lines|
    ensures TableRows(Rows(lines, lo, k))
    decreases k
  {
    if k > lo {
      RowsShape(lines, lo, k - 1);
      RowOfShape(lines[k - 1]);
      TableRowsAppend(Rows(lines, lo, k - 1), RowOf(lines[k - 1]));
    }
  }

  /** Well-formed TableRows, each with at least one cell. */
  predicate TableRows(rows: seq<Node>) {
    forall i :: 0 <= i < |rows| ==> rows[i].kind == TableRow && rows[i].children != [] && WellFormed(rows[i])
  }

  lemma RowOfShape(line: string)
    ensures TableRows(RowOf(line))
  {
    CellsShape(line, ScanUntil(line, 0, {'|'}), 0);
  }

  lemma TableRowsAppend(a: seq<Node>, b: seq<Node>)
    requires TableRows(a) && TableRows(b)
    ensures TableRows(a + b)
  {
  }

  /** Every block parse_block appends is well-formed, so the serializers can
      take the parsed document. */
  lemma BlockWellFormed(lines: seq<string>, pos: nat)
    requires pos < |lines|
    ensures forall i :: 0 <= i < |Block(lines, pos).nodes| ==> WellFormed(Block(lines, pos).nodes[i])
  {
    var line := lines[pos];
    if line == [] || IsRule(line) || HeadingMatch(line).Some? || FenceOpen(line).Some? {
    } else if QuoteMatch(line).Some? {
      InlineWellFormed(QuoteMatch(line).value);
    } else if ItemMatch(line).Some? {
      var e := FirstStop(lines, pos, NotItem);
      ItemsShape(lines, pos, e, NumberedMatch(line).Some?);
    } else if '|' in line {
      RowsShape(lines, pos, FirstStop(lines, pos, NoBar));
    } else {
      InlineWellFormed(Joined(lines, pos, FirstStop(lines, pos + 1, ParagraphStop)));
    }
  }

  lemma {:induction false} BlocksWellFormed(lines: seq<string>, pos: nat)
    requires pos <= |lines|
    ensures forall i :: 0 <= i < |Blocks(lines, pos)| ==> WellFormed(Blocks(lines, pos)[i])
    decreases |lines| - pos
  {
    if pos < |lines| {
      var b := Block(lines, pos);
      BlocksUnfold(lines, pos, b);
      BlockWellFormed(lines, pos);
      BlocksWellFormed(lines, b.next);
    }
  }

  /** deserialize never fails: its result is a well-formed Document root,
      empty for an empty input. */
  lemma DeserializedWellFormed(markdown: string)
    ensures var d := Deserialized(markdown);
      d.kind == Document && WellFormed(d) && (markdown == [] ==> d.children == [])
  {
    BlocksWellFormed(Lines(markdown), 0);
  }

  /** A list's ordered flag is fixed by its first line: every item is
      marked ordered exactly when that line is numbered, whatever its own
      form, and the list holds one item per line it consumed. */
  lemma ListOrderFromFirstLine(lines: seq<string>, pos: nat)
    requires pos < |lines| && Block(lines, pos).nodes != [] && Block(lines, pos).nodes[0].kind == List
    ensures var b := Block(lines, pos);
      |b.nodes[0].children| == b.next - pos
      && forall i :: 0 <= i < |b.nodes[0].children| ==>
           b.nodes[0].children[i].kind == ListItem
           && (IsOrderedItem(b.nodes[0].children[i]) <==> NumberedMatch(lines[pos]).Some?)
           && b.nodes[0].children[i].children == Inline(ItemText(lines[pos + i]))
  {
    var line := lines[pos];
    assert ItemMatch(line).Some? && !(line == [] || IsRule(line) || HeadingMatch(line).Some? || FenceOpen(line).Some? || QuoteMatch(line).Some?);
    var e := FirstStop(lines, pos, NotItem);
    ItemsShape(lines, pos, e, NumberedMatch(line).Some?);
  }

  /** A table keeps only rows that produced a cell, and ends at the first
      line without '|'. */
  lemma TableRowsKept(lines: seq<string>, pos: nat)
    requires pos < |lines| && Block(lines, pos).nodes != [] && Block(lines, pos).nodes[0].kind == Table
    ensures var b := Block(lines, pos);
      b.next == FirstStop(lines, pos, NoBar)
      && forall i :: 0 <= i < |b.nodes[0].children| ==> b.nodes[0].children[i].kind == TableRow && b.nodes[0].children[i].children != []
  {
    var line := lines[pos];
    assert '|' in line && ItemMatch(line).None? && !(line == [] || IsRule(line) || HeadingMatch(line).Some? || FenceOpen(line).Some? || QuoteMatch(line).Some?);
    RowsShape(lines, pos, FirstStop(lines, pos, NoBar));
  }

  /** The separator line the serializer writes after a table's first row
      stays inside the table (it has a '|') and is dropped by the parser. */
  lemma SeparatorLineDropped(cells: nat)
    requires cells >= 1
    ensures var line := SeparatorLine(cells)[..|SeparatorLine(cells)| - 1];
      '|' in line && IsSeparatorRow(line) && RowOf(line) == []
  {
    SeparatorCellsChars(cells);
    var line := "|" + SeparatorCells(cells);
    assert SeparatorLine(cells)[..|SeparatorLine(cells)| - 1] == line;
    assert line[0] == '|';
    assert SkipSpace(line, 0) == 0;
    assert line[|line| - 1] == '|';
    assert SpaceTail(line, |line|) == |line|;
  }

  lemma {:induction false} SeparatorCellsChars(cells: nat)
    ensures var s := SeparatorCells(cells);
      |s| == 6 * cells && (forall k :: 0 <= k < |s| ==> s[k] in {' ', '-', '|'})
      && (cells >= 1 ==> s[|s| - 1] == '|')
  {
    if cells > 0 {
      SeparatorCellsChars(cells - 1);
    }
  }

  /** A `# Title` line (hashes, white space, then more text) does not end a
      paragraph: only an empty line or bare hashes do. */
  lemma TitleDoesNotStopParagraph(line: string, title: string)
    requires line == "# " + title && exists k :: 0 <= k < |title| && !IsSpace(title[k])
    ensures !Stops(line, ParagraphStop)
  {
    var k :| 0 <= k < |title| && !IsSpace(title[k]);
    assert line[2 + k] == title[k];
    assert Span(line, 0, Hashes) == 1 by { assert line[1] == ' '; }
    SkipSpaceSkips(line, 1);
  }

  /** So a heading line directly after paragraph text is absorbed into the
      paragraph instead of starting a heading. */
  lemma ParagraphAbsorbsTitle(lines: seq<string>, pos: nat, title: string)
    requires pos + 1 < |lines| && lines[pos + 1] == "# " + title && exists k :: 0 <= k < |title| && !IsSpace(title[k])
    requires Block(lines, pos).nodes != [] && Block(lines, pos).nodes[0].kind == Paragraph
    ensures Block(lines, pos).next > pos + 1
  {
    var line := lines[pos];
    assert !(line == [] || IsRule(line) || HeadingMatch(line).Some? || FenceOpen(line).Some? || QuoteMatch(line).Some? || ItemMatch(line).Some? || '|' in line);
    TitleDoesNotStopParagraph(lines[pos + 1], title);
  }
}
