/** The markdown text Serializer::markdown writes for a document of
    headings, rules and fenced code reads back, through
    Deserializer::deserialize, as the same document. */
module MarkdownRoundTrip {
  import opened Wrappers
  import opened Chars
  import opened StdString
  import FileUtils
  import opened Markdown
  import opened MarkdownParser

  // ---------------------------------------------------------------------
  // The documents the round trip covers

  predicate IsWord(s: string) { forall k :: 0 <= k < |s| ==> IsAlnum(s[k]) || s[k] == '_' }

  /** The lines of a code text, as the fence reads them. */
  function CodeLines(text: string): seq<string> {
    Lines(text + "\n")
  }

  /** Code the fence reads back unchanged: no leading line break (the
      parser drops leading empty code lines) and no line that would close
      the fence early. */
  predicate SafeCode(text: string) {
    (text == [] || text[0] != '\n')
    && forall j :: 0 <= j < |CodeLines(text)| ==> !FenceClose(CodeLines(text)[j])
  }

  /** A heading the parser can read back: level 1 to 6, text that starts
      with a non-space char and holds no line terminator. */
  predicate SimpleHeading(c: Node) {
    c == Node(Heading, c.text, map[], [], c.level) && 1 <= c.level <= 6
    && c.text != [] && !IsSpace(c.text[0]) && DotChars(c.text)
  }

  predicate SimpleCode(c: Node) {
    c == CodeNode(c.text, Language(c)) && IsWord(Language(c)) && SafeCode(c.text)
  }

  predicate Simple(c: Node) {
    SimpleHeading(c) || SimpleCode(c) || c == Empty(HorizontalRule)
  }

  // ---------------------------------------------------------------------
  // Runs of the matchers on the serialized lines

  lemma {:induction false} SpanAt(s: string, lo: nat, i: nat, cl: CharClass)
    requires lo <= i <= |s|
    requires forall k :: lo <= k < i ==> InClass(s[k], cl)
    requires i < |s| ==> !InClass(s[i], cl)
    ensures Span(s, lo, cl) == i
    decreases i - lo
  {
    if lo < i {
      SpanAt(s, lo + 1, i, cl);
    }
  }

  lemma HeadingLine(line: string, level: nat, text: string)
    requires line == Repeat('#', level) + " " + text
    requires 1 <= level <= 6 && text != [] && !IsSpace(text[0]) && DotChars(text)
    ensures line != [] && !IsRule(line) && HeadingMatch(line) == Some((level, text))
  {
    assert line[level] == ' ' && line[level + 1] == text[0];
    SpanAt(line, 0, level, Hashes);
    assert SkipSpace(line, level + 1) == level + 1;
    assert line[level + 1..] == text;
    assert SkipSpace(line, 0) == 0 && Span(line, 0, RuleMarks) == 0;
  }

  lemma RuleLine(line: string)
    requires line == "---"
    ensures line != [] && IsRule(line)
  {
    SpanAt(line, 0, 3, RuleMarks);
  }

  lemma FenceLine(line: string, language: string)
    requires line == "```" + language && IsWord(language)
    ensures line != [] && !IsRule(line) && HeadingMatch(line).None? && FenceOpen(line) == Some(language)
  {
    forall k | 3 <= k < |line| ensures InClass(line[k], WordChars) {
      assert line[k] == language[k - 3];
    }
    SpanAt(line, 3, |line|, WordChars);
    assert line[..3] == "```" && line[3..] == language && line[0] == '`';
    assert SkipSpace(line, |line|) == |line|;
    assert SkipSpace(line, 0) == 0 && Span(line, 0, RuleMarks) == 0 && Span(line, 0, Hashes) == 0;
    assert line != [];
    assert !IsRule(line);
    assert HeadingMatch(line).None?;
    assert HasPrefix(line, "```");
    assert Span(line, 3, WordChars) == |line|;
    assert line[3..|line|] == language;
    assert FenceOpen(line) == Some(language);
  }

  lemma CloseLine(line: string)
    requires line == "```"
    ensures FenceClose(line)
  {
    assert line[..3] == "```";
  }

  // ---------------------------------------------------------------------
  // The code text between the fences

  /** Once the first line is not empty, the tellp() rule is a plain join
      with "\n". */
  lemma {:induction false} FencedIsJoin(lines: seq<string>, lo: nat, k: nat)
    requires lo < k <= |lines| && (lines[lo] != [] || k == lo + 1)
    ensures FencedText(lines, lo, k) == FileUtils.JoinSpec(lines[lo..k], "\n")
    ensures lines[lo] != [] ==> FencedText(lines, lo, k) != []
    decreases k
  {
    if k == lo + 1 {
      assert FencedText(lines, lo, lo) == "";
      assert lines[lo..k] == [lines[lo]];
    } else {
      FencedIsJoin(lines, lo, k - 1);
      assert lines[lo..k] == lines[lo..k - 1] + [lines[k - 1]];
      assert lines[lo..k][..k - 1 - lo] == lines[lo..k - 1];
    }
  }

  /** The first code line ends at the first line break. */
  lemma CodeLinesHead(s: string, k: nat)
    requires k < |s| && s[k] == '\n' && forall m :: 0 <= m < k ==> s[m] != '\n'
    ensures CodeLines(s) == [s[..k]] + CodeLines(s[k + 1..])
  {
    var t := s + "\n";
    FileUtils.PiecesHead(t, '\n', k);
    assert t[..k] == s[..k];
    assert t[k + 1..] == s[k + 1..] + "\n";
  }

  lemma SplitAtBreak(s: string, k: nat)
    requires k < |s| && s[k] == '\n'
    ensures s[..k] + "\n" + s[k + 1..] == s
  {
  }

  /** Joining the lines of s + "\n" gives s back. */
  lemma {:induction false} JoinCodeLines(s: string)
    ensures CodeLines(s) != [] && FileUtils.JoinSpec(CodeLines(s), "\n") == s
    ensures CodeLines(s)[0] == [] ==> s == [] || s[0] == '\n'
    decreases |s|
  {
    if '\n' in s {
      var k := FileUtils.FindFirst(s, '\n');
      var head, rest := s[..k], s[k + 1..];
      CodeLinesHead(s, k);
      JoinCodeLines(rest);
      var tail := CodeLines(rest);
      FileUtils.JoinCons(head, tail, "\n");
      calc {
        FileUtils.JoinSpec(CodeLines(s), "\n");
        FileUtils.JoinSpec([head] + tail, "\n");
        head + "\n" + FileUtils.JoinSpec(tail, "\n");
        head + "\n" + rest;
        { SplitAtBreak(s, k); }
        s;
      }
      assert head == [] ==> s[0] == '\n';
    } else {
      FileUtils.PiecesOfLine(s, '\n');
    }
  }

  /** The fence reads the code lines back as the code text. */
  lemma CodeTextBack(lines: seq<string>, lo: nat, text: string)
    requires SafeCode(text) && LinesAt(lines, lo, CodeLines(text))
    ensures FencedText(lines, lo, lo + |CodeLines(text)|) == text
  {
    var tl := CodeLines(text);
    JoinCodeLines(text);
    assert lines[lo] == tl[0];
    if text == [] {
      FileUtils.PiecesOfLine("", '\n');
      assert text + "\n" == "" + ['\n'];
    }
    FencedIsJoin(lines, lo, lo + |tl|);
  }

  // ---------------------------------------------------------------------
  // The lines of one serialized block

  lemma SimpleWellFormed(c: Node)
    requires Simple(c)
    ensures WellFormed(c) && IsBlock(c.kind) && c.children == []
  {
  }

  /** The lines the serializer writes for one block of a document, the
      document's "\n" after it included. */
  function ChildLines(c: Node): seq<string>
    requires WellFormed(c)
  {
    Lines(MarkdownOf(c, 0) + "\n")
  }

  /** The same lines, spelled out for each simple kind. */
  function BlockLines(c: Node): seq<string> {
    if c.kind == Heading then [Repeat('#', c.level) + " " + c.text, ""]
    else if c.kind == CodeBlock then ["```" + Language(c)] + CodeLines(c.text) + ["```", ""]
    else ["---", ""]
  }

  /** getline restarts after a line break. */
  lemma LinesConcat(a: string, b: string)
    requires a == [] || a[|a| - 1] == '\n'
    ensures Lines(a + b) == Lines(a) + Lines(b)
  {
    FileUtils.PiecesAppend(a, b, '\n');
  }

  lemma LineOf(t: string)
    requires '\n' !in t
    ensures Lines(t + "\n") == [t]
  {
    FileUtils.PiecesOfLine(t, '\n');
  }

  /** A line and then an empty line. */
  lemma LineThenBlank(t: string)
    requires '\n' !in t
    ensures Lines(t + "\n" + "\n") == [t, ""]
  {
    LinesConcat(t + "\n", "\n");
    LineOf(t);
    LineOf("");
    assert "" + "\n" == "\n";
  }

  lemma HeadingLines(c: Node)
    requires SimpleHeading(c)
    ensures ChildLines(c) == [Repeat('#', c.level) + " " + c.text, ""]
  {
    var line := Repeat('#', c.level) + " " + c.text;
    assert forall k :: 0 <= k < |line| ==> line[k] != '\n' by {
      forall k | 0 <= k < |line| ensures line[k] != '\n' {
        if k > c.level { assert line[k] == c.text[k - c.level - 1]; }
      }
    }
    LineThenBlank(line);
  }

  lemma RuleLines()
    ensures ChildLines(Empty(HorizontalRule)) == ["---", ""]
  {
    var r := "---";
    assert '\n' !in r;
    assert MarkdownOf(Empty(HorizontalRule), 0) + "\n" == r + "\n" + "\n";
    LineThenBlank(r);
  }

  lemma SimpleLines(c: Node)
    requires Simple(c)
    ensures WellFormed(c) && ChildLines(c) == BlockLines(c)
  {
    if SimpleHeading(c) {
      HeadingLines(c);
    } else if SimpleCode(c) {
      CodeLinesOfBlock(c);
    } else {
      RuleLines();
    }
  }

  lemma CodeLinesOfBlock(c: Node)
    requires SimpleCode(c)
    ensures ChildLines(c) == ["```" + Language(c)] + CodeLines(c.text) + ["```", ""]
  {
    var f, t := "```" + Language(c), c.text;
    assert '\n' !in f by {
      forall k | 0 <= k < |f| ensures f[k] != '\n' {
        if k >= 3 { assert f[k] == Language(c)[k - 3]; }
      }
    }
    var md := MarkdownOf(c, 0) + "\n";
    var a, b := f + "\n", t + "\n";
    assert md == a + (b + ("```" + "\n" + "\n"));
    LinesConcat(a, b + ("```" + "\n" + "\n"));
    LinesConcat(b, "```" + "\n" + "\n");
    LineOf(f);
    LineThenBlank("```");
  }

  // ---------------------------------------------------------------------
  // Parsing one serialized block inside the whole document

  /** The lines bl sit in lines from o on. */
  predicate LinesAt(lines: seq<string>, o: nat, bl: seq<string>) {
    o + |bl| <= |lines| && lines[o..o + |bl|] == bl
  }

  /** Line i of bl is line p of lines. */
  lemma LineAt(lines: seq<string>, o: nat, bl: seq<string>, i: nat) returns (p: nat)
    requires LinesAt(lines, o, bl) && i < |bl|
    ensures p == o + i && p < |lines| && lines[p] == bl[i]
  {
    p := o + i;
    assert lines[o..o + |bl|][i] == lines[p];
  }

  /** Lines i up to j of bl sit in lines from p on. */
  lemma SubLines(lines: seq<string>, o: nat, bl: seq<string>, i: nat, j: nat) returns (p: nat)
    requires LinesAt(lines, o, bl) && i <= j <= |bl|
    ensures p == o + i && LinesAt(lines, p, bl[i..j])
  {
    p := o + i;
    forall t | 0 <= t < j - i ensures lines[p..p + (j - i)][t] == bl[i..j][t] {
      assert lines[o..o + |bl|][i + t] == lines[p + t];
    }
  }

  /** Lines that sit in a also sit in a + b. */
  lemma LinesAtPrefix(a: seq<string>, b: seq<string>, o: nat, bl: seq<string>)
    requires LinesAt(a, o, bl)
    ensures LinesAt(a + b, o, bl)
  {
    assert (a + b)[o..o + |bl|] == a[o..o + |bl|];
  }

  lemma BlankAt(lines: seq<string>, o: nat)
    requires o < |lines| && lines[o] == []
    ensures Blocks(lines, o) == Blocks(lines, o + 1)
  {
    BlocksUnfold(lines, o, Block(lines, o));
  }

  /** Reading from o gives the block c and then what reading from n gives. */
  predicate Joins(lines: seq<string>, o: nat, c: Node, n: nat) {
    o <= n <= |lines| && Blocks(lines, o) == [c] + Blocks(lines, n)
  }

  /** Lines read as the block c up to the empty line z. */
  lemma BlockThenBlank(lines: seq<string>, o: nat, c: Node, z: nat) returns (next: nat)
    requires o < |lines| && z < |lines| && Block(lines, o) == Step([c], z) && lines[z] == []
    ensures next == z + 1 && Joins(lines, o, c, next)
  {
    BlocksStep(lines, o, [c], z);
    BlankAt(lines, z);
    next := z + 1;
    assert Blocks(lines, o) == [c] + Blocks(lines, next);
  }

  /** A line that is read as the block c, then an empty line. */
  lemma LineThenBlankAt(lines: seq<string>, o: nat, c: Node, line: string) returns (next: nat)
    requires LinesAt(lines, o, [line, ""])
    requires line != [] && Block(lines, o) == Step([c], o + 1)
    ensures next == o + 2 && Joins(lines, o, c, next)
  {
    var blank := LineAt(lines, o, [line, ""], 1);
    next := BlockThenBlank(lines, o, c, blank);
  }

  lemma HeadingAt(lines: seq<string>, o: nat, c: Node) returns (next: nat)
    requires SimpleHeading(c) && LinesAt(lines, o, BlockLines(c))
    ensures next == o + |BlockLines(c)| && Joins(lines, o, c, next)
  {
    var line := Repeat('#', c.level) + " " + c.text;
    assert BlockLines(c) == [line, ""];
    var p := LineAt(lines, o, [line, ""], 0);
    HeadingLine(lines[o], c.level, c.text);
    assert Block(lines, o) == Step([c], o + 1);
    next := LineThenBlankAt(lines, o, c, line);
  }

  lemma RuleAt(lines: seq<string>, o: nat, c: Node) returns (next: nat)
    requires c == Empty(HorizontalRule) && LinesAt(lines, o, BlockLines(c))
    ensures next == o + |BlockLines(c)| && Joins(lines, o, c, next)
  {
    assert BlockLines(c) == ["---", ""];
    var p := LineAt(lines, o, ["---", ""], 0);
    RuleLine(lines[o]);
    assert Block(lines, o) == Step([c], o + 1);
    next := LineThenBlankAt(lines, o, c, "---");
  }

  /** The parts of a fenced block's lines. */
  lemma FenceParts(f: string, tl: seq<string>, cl: seq<string>)
    requires cl == [f] + tl + ["```", ""]
    ensures |cl| == |tl| + 3 && cl[0] == f && cl[1..1 + |tl|] == tl
    ensures cl[1 + |tl|] == "```" && cl[2 + |tl|] == ""
  {
  }

  /** Code lines none of which closes the fence run up to the closing
      fence right after them. */
  lemma {:induction false} CodeRun(lines: seq<string>, s: nat, tl: seq<string>)
    requires LinesAt(lines, s, tl) && s + |tl| < |lines| && FenceClose(lines[s + |tl|])
    requires forall j :: 0 <= j < |tl| ==> !FenceClose(tl[j])
    ensures FirstStop(lines, s, ClosingFence) == s + |tl|
    decreases |tl|
  {
    if tl != [] {
      var p := LineAt(lines, s, tl, 0);
      var s1 := SubLines(lines, s, tl, 1, |tl|);
      var rest := tl[1..];
      assert forall j :: 0 <= j < |rest| ==> !FenceClose(rest[j]) by {
        forall j | 0 <= j < |rest| ensures !FenceClose(rest[j]) {
          assert rest[j] == tl[j + 1];
        }
      }
      CodeRun(lines, s1, rest);
    }
  }

  /** The fence's parts: its code lines run from s up to the closing
      fence at e, and the empty line z follows. */
  lemma CodeSpan(lines: seq<string>, o: nat, c: Node) returns (s: nat, e: nat, z: nat)
    requires SimpleCode(c) && LinesAt(lines, o, BlockLines(c))
    ensures s == o + 1 && e == s + |CodeLines(c.text)| && z == e + 1 && z + 1 == o + |BlockLines(c)|
    ensures lines[o] == "```" + Language(c) && LinesAt(lines, s, CodeLines(c.text))
    ensures z < |lines| && lines[z] == [] && FirstStop(lines, s, ClosingFence) == e
  {
    var tl := CodeLines(c.text);
    var cl := BlockLines(c);
    FenceParts("```" + Language(c), tl, cl);
    var p := LineAt(lines, o, cl, 0);
    s := SubLines(lines, o, cl, 1, 1 + |tl|);
    e := LineAt(lines, o, cl, 1 + |tl|);
    z := LineAt(lines, o, cl, 2 + |tl|);
    CloseLine(lines[e]);
    CodeRun(lines, s, tl);
  }

  lemma CodeAt(lines: seq<string>, o: nat, c: Node) returns (next: nat)
    requires SimpleCode(c) && LinesAt(lines, o, BlockLines(c))
    ensures next == o + |BlockLines(c)| && Joins(lines, o, c, next)
  {
    var s, e, z := CodeSpan(lines, o, c);
    FenceLine(lines[o], Language(c));
    CodeTextBack(lines, s, c.text);
    assert Block(lines, o) == Step([CodeNode(c.text, Language(c))], z);
    next := BlockThenBlank(lines, o, c, z);
  }

  /** A simple block is read back from its own lines. */
  lemma ChildAt(lines: seq<string>, o: nat, c: Node) returns (next: nat)
    requires Simple(c) && LinesAt(lines, o, BlockLines(c))
    ensures next == o + |BlockLines(c)| && Joins(lines, o, c, next)
  {
    if SimpleHeading(c) {
      next := HeadingAt(lines, o, c);
    } else if SimpleCode(c) {
      next := CodeAt(lines, o, c);
    } else {
      next := RuleAt(lines, o, c);
    }
  }

  // ---------------------------------------------------------------------
  // The whole document

  predicate AllSimple(cs: seq<Node>) {
    forall i :: 0 <= i < |cs| ==> Simple(cs[i])
  }

  /** gs holds the lines of each block of cs. */
  predicate GroupsOf(gs: seq<seq<string>>, cs: seq<Node>) {
    |gs| == |cs| && forall i :: 0 <= i < |cs| ==> gs[i] == BlockLines(cs[i])
  }

  function Groups(cs: seq<Node>): (gs: seq<seq<string>>)
    ensures GroupsOf(gs, cs)
  {
    seq(|cs|, i requires 0 <= i < |cs| => BlockLines(cs[i]))
  }

  /** The first k groups, one after the other. */
  function Concat(gs: seq<seq<string>>, k: nat): seq<string>
    requires k <= |gs|
  {
    if k == 0 then [] else Concat(gs, k - 1) + gs[k - 1]
  }

  /** Group k sits in the first m > k groups right after the groups before
      it. */
  lemma {:induction false} ConcatSlice(gs: seq<seq<string>>, k: nat, m: nat)
    requires k < m <= |gs|
    ensures LinesAt(Concat(gs, m), |Concat(gs, k)|, gs[k])
    decreases m
  {
    var before, g := Concat(gs, k), gs[k];
    if m == k + 1 {
      assert (before + g)[|before|..|before| + |g|] == g;
    } else {
      ConcatSlice(gs, k, m - 1);
      LinesAtPrefix(Concat(gs, m - 1), gs[m - 1], |before|, g);
    }
  }

  /** A text that is empty or ends in a line break. */
  predicate EndsLine(t: string) {
    t == [] || t[|t| - 1] == '\n'
  }

  /** One more block of the document text, with its empty line. */
  lemma DocumentTextStep(n: Node, k: nat)
    requires WellFormed(n) && 0 < k <= |n.children| && IsBlock(n.children[k - 1].kind)
    ensures DocumentText(n, k, 0) == DocumentText(n, k - 1, 0) + (MarkdownOf(n.children[k - 1], 0) + "\n")
  {
  }

  /** Block k of the document as the serializer writes it: its lines and
      the line break that ends it. */
  lemma DocumentStep(n: Node, gs: seq<seq<string>>, k: nat) returns (b: string)
    requires WellFormed(n) && AllSimple(n.children) && GroupsOf(gs, n.children) && 0 < k <= |n.children|
    ensures DocumentText(n, k, 0) == DocumentText(n, k - 1, 0) + b
    ensures b != [] && b[|b| - 1] == '\n' && Lines(b) == gs[k - 1]
  {
    var c := n.children[k - 1];
    SimpleWellFormed(c);
    DocumentTextStep(n, k);
    SimpleLines(c);
    b := MarkdownOf(c, 0) + "\n";
  }

  /** The lines of a text that ends in a line break, then those of b. */
  lemma LinesAfter(a: string, b: string)
    requires EndsLine(a) && b != [] && b[|b| - 1] == '\n'
    ensures Lines(a + b) == Lines(a) + Lines(b) && EndsLine(a + b)
  {
    LinesConcat(a, b);
  }

  /** The first k blocks of the document text are the first k groups of
      lines, and the text ends with a line break. */
  predicate LinesSoFar(n: Node, gs: seq<seq<string>>, k: nat)
    requires WellFormed(n) && k <= |n.children| && k <= |gs|
  {
    Lines(DocumentText(n, k, 0)) == Concat(gs, k) && EndsLine(DocumentText(n, k, 0))
  }

  /** The lines of one more block. */
  lemma DocumentLinesStep(n: Node, gs: seq<seq<string>>, k: nat)
    requires WellFormed(n) && AllSimple(n.children) && GroupsOf(gs, n.children) && 0 < k <= |n.children|
    requires LinesSoFar(n, gs, k - 1)
    ensures LinesSoFar(n, gs, k)
  {
    var b := DocumentStep(n, gs, k);
    LinesAfter(DocumentText(n, k - 1, 0), b);
  }

  /** getline splits the serialized document block by block. */
  lemma {:induction false} DocumentLines(n: Node, gs: seq<seq<string>>, k: nat)
    requires WellFormed(n) && AllSimple(n.children) && GroupsOf(gs, n.children) && k <= |n.children|
    ensures LinesSoFar(n, gs, k)
    decreases k
  {
    if k > 0 {
      DocumentLines(n, gs, k - 1);
      DocumentLinesStep(n, gs, k);
    }
  }

  /** The lines of the blocks cs, group by group. */
  predicate Serialized(lines: seq<string>, cs: seq<Node>, gs: seq<seq<string>>) {
    AllSimple(cs) && GroupsOf(gs, cs) && lines == Concat(gs, |gs|)
  }

  /** Block k is read back from where the groups before it end. */
  lemma GroupStep(lines: seq<string>, cs: seq<Node>, gs: seq<seq<string>>, k: nat) returns (next: nat)
    requires Serialized(lines, cs, gs) && k < |gs|
    ensures next == |Concat(gs, k + 1)| && Joins(lines, |Concat(gs, k)|, cs[k], next)
  {
    ConcatSlice(gs, k, |gs|);
    next := ChildAt(lines, |Concat(gs, k)|, cs[k]);
  }

  /** From block k on, block j of cs is read from where the groups before
      it end, and the last group ends with the lines. */
  predicate Chain(lines: seq<string>, cs: seq<Node>, gs: seq<seq<string>>, k: nat)
    requires |gs| == |cs| && k <= |cs|
    decreases |cs| - k
  {
    if k == |cs| then |Concat(gs, k)| == |lines|
    else Joins(lines, |Concat(gs, k)|, cs[k], |Concat(gs, k + 1)|) && Chain(lines, cs, gs, k + 1)
  }

  /** Reading along the chain from block k gives the blocks from k on. */
  lemma {:induction false} ChainBlocks(lines: seq<string>, cs: seq<Node>, gs: seq<seq<string>>, k: nat)
    requires |gs| == |cs| && k <= |cs| && Chain(lines, cs, gs, k)
    ensures |Concat(gs, k)| <= |lines| && Blocks(lines, |Concat(gs, k)|) == cs[k..]
    decreases |cs| - k
  {
    if k < |cs| {
      ChainBlocks(lines, cs, gs, k + 1);
      assert cs[k..] == [cs[k]] + cs[k + 1..];
    }
  }

  /** The serialized lines are read block by block. */
  lemma GroupChain(lines: seq<string>, cs: seq<Node>, gs: seq<seq<string>>, k: nat)
    requires Serialized(lines, cs, gs) && k <= |gs|
    ensures Chain(lines, cs, gs, k)
  {
    forall j | k <= j < |cs| ensures Joins(lines, |Concat(gs, j)|, cs[j], |Concat(gs, j + 1)|) {
      var next := GroupStep(lines, cs, gs, j);
    }
    ChainFrom(lines, cs, gs, k);
  }

  /** Blocks k on each read from where the groups before them end, and
      the groups end with the lines: the chain from k holds. */
  lemma {:induction false} ChainFrom(lines: seq<string>, cs: seq<Node>, gs: seq<seq<string>>, k: nat)
    requires |gs| == |cs| && k <= |cs| && |Concat(gs, |gs|)| == |lines|
    requires forall j :: k <= j < |cs| ==> Joins(lines, |Concat(gs, j)|, cs[j], |Concat(gs, j + 1)|)
    ensures Chain(lines, cs, gs, k)
    decreases |cs| - k
  {
    if k < |cs| {
      ChainFrom(lines, cs, gs, k + 1);
    }
  }

  /** Serializer::markdown and then Deserializer::deserialize give back a
      document of simple headings, rules and fenced code blocks. */
  lemma MarkdownRoundTrip(doc: Node)
    requires doc == Node(Document, "", map[], doc.children, 0) && AllSimple(doc.children)
    ensures WellFormed(doc) && Deserialized(ToMarkdown(doc)) == doc
  {
    var cs := doc.children;
    forall i | 0 <= i < |cs| ensures WellFormed(cs[i]) {
      SimpleWellFormed(cs[i]);
    }
    var gs := Groups(cs);
    DocumentLines(doc, gs, |cs|);
    var lines := Lines(ToMarkdown(doc));
    GroupChain(lines, cs, gs, 0);
    ChainBlocks(lines, cs, gs, 0);
    assert cs[0..] == cs;
  }
}
