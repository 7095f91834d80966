/** What the template mini-language of parsers/template/template_engine.cpp
    promises, proved about the rendering functions of `Template`: text
    outside "{{" is copied, a variable tag prints its value, an if block
    picks a branch, each and for repeat their body per item, unclosed tags
    are left as text, and dotted lookup descends through objects. */
module TemplateProperties {
  import opened Wrappers
  import opened StdString
  import Chars
  import FileUtils
  import opened Template

  // ---------------------------------------------------------------------
  // Scanning primitives

  /** A run of name chars ending at the end or at a non-name char is read
      whole. */
  lemma {:induction false} NameEndRun(s: string, i: nat, e: nat)
    requires i <= e <= |s|
    requires forall k :: i <= k < e ==> IsNameChar(s[k])
    requires e == |s| || !IsNameChar(s[e])
    ensures NameEnd(s, i) == e
    decreases e - i
  {
    if i < e {
      NameEndRun(s, i + 1, e);
    }
  }

  /** A condition without braces is read up to the '}' after it. */
  lemma {:induction false} BraceEndRun(s: string, i: nat, e: nat)
    requires i <= e < |s| && s[e] == '}'
    requires forall k :: i <= k < e ==> s[k] != '{' && s[k] != '}'
    ensures BraceEnd(s, i, 0) == e
    decreases e - i
  {
    if i < e {
      BraceEndRun(s, i + 1, e);
    }
  }

  /** find stops at the first occurrence. */
  lemma {:induction false} FindFirst(s: string, pat: string, lo: nat, e: nat)
    requires lo <= e && OccursAt(s, pat, e)
    requires forall k :: lo <= k < e ==> !OccursAt(s, pat, k)
    ensures Find(s, pat, lo) == Some(e)
    decreases e - lo
  {
    if lo < e {
      FindFirst(s, pat, lo + 1, e);
    }
  }

  /** find gives npos when the pattern occurs nowhere from lo. */
  lemma {:induction false} FindAbsent(s: string, pat: string, lo: nat)
    requires forall k :: lo <= k ==> !OccursAt(s, pat, k)
    ensures Find(s, pat, lo) == None
    decreases |s| - lo
  {
    if lo + |pat| <= |s| {
      FindAbsent(s, pat, lo + 1);
    }
  }

  /** Text without '{' holds no tag. */
  predicate NoBrace(s: string) {
    forall i :: 0 <= i < |s| ==> s[i] != '{'
  }

  // ---------------------------------------------------------------------
  // Plain text

  /** The loop copies every char of a stretch that holds no "{{". */
  lemma {:induction false} PlainFrom(input: string, pos: nat, ctx: map<string, Value>, reg: map<string, Helper>)
    requires pos <= |input|
    requires forall k :: pos <= k < |input| ==> !At(input, k, "{{")
    ensures RenderFrom(input, pos, ctx, reg) == Rendered(input[pos..], [])
    decreases |input| - pos
  {
    if pos < |input| {
      assert StepAt(input, pos, ctx, reg) == Out([input[pos]], [], pos + 1);
      PlainFrom(input, pos + 1, ctx, reg);
      assert [input[pos]] + input[pos + 1..] == input[pos..];
    }
  }

  /** A template with no "{{" renders to itself, without errors. */
  lemma PlainText(input: string, ctx: map<string, Value>, reg: map<string, Helper>)
    requires forall k :: 0 <= k < |input| ==> !At(input, k, "{{")
    ensures Render(input, ctx, reg) == Rendered(input, [])
  {
    PlainFrom(input, 0, ctx, reg);
    assert input[0..] == input;
  }

  /** Text without '{' holds no "{{". */
  lemma NoBraceIsPlain(s: string)
    requires NoBrace(s)
    ensures forall k :: 0 <= k < |s| ==> !At(s, k, "{{")
  {
    forall k | 0 <= k < |s| && At(s, k, "{{")
      ensures false
    {
      AtChar(s, k, "{{", 0);
    }
  }

  /** t does not start at p when one of its chars differs from s. */
  lemma NotAt(s: string, p: nat, t: string, j: nat)
    requires j < |t| && p + j < |s| && s[p + j] != t[j]
    ensures !At(s, p, t)
  {
    if p + |t| <= |s| {
      assert s[p..p + |t|][j] == s[p + j];
    }
  }

  /** A tag that starts with a name char is a variable block. */
  lemma VariableKind(input: string, p: nat)
    requires p < |input| && IsNameChar(input[p])
    ensures SkipSpace(input, p) == p
    ensures BlockKind(input, p) == VariableBlock
  {
    NotAt(input, p, "#if", 0);
    NotAt(input, p, "#each", 0);
    NotAt(input, p, "#for", 0);
    NotAt(input, p, ">", 0);
  }

  /** A name is a non-empty run of name chars. */
  predicate IsName(name: string) {
    name != [] && forall k :: 0 <= k < |name| ==> IsNameChar(name[k])
  }

  /** parse_block hands a variable block to parse_variable. */
  lemma BlockVariable(input: string, p: nat, ctx: map<string, Value>, reg: map<string, Helper>)
    requires p <= |input| && SkipSpace(input, p) == p && BlockKind(input, p) == VariableBlock
    ensures BlockAt(input, p, ctx, reg) == VariableAt(input, p, ctx)
  {
    assert KindAt(VariableBlock, input, p, ctx, reg) == VariableAt(input, p, ctx);
  }

  /** A name followed by "}}" prints the name's value. */
  lemma VariableClosed(input: string, p: nat, name: string, n: nat, ctx: map<string, Value>)
    requires p <= |input| && NameAt(input, p) == n && NameFrom(input, p) == name && At(input, n, "}}")
    ensures VariableAt(input, p, ctx) == Out(ToString(Resolve(ctx, name)), [], n + 2)
  {
  }

  /** A variable tag: the block at p is a variable block whose name ends
      right before "}}". */
  lemma VariableTagFacts(input: string, p: nat, name: string)
    requires IsName(name) && At(input, p, name) && At(input, p + |name|, "}}")
    ensures SkipSpace(input, p) == p && BlockKind(input, p) == VariableBlock
    ensures NameAt(input, p) == p + |name| && NameFrom(input, p) == name
  {
    AtChar(input, p, name, 0);
    VariableKind(input, p);
    NameTag(input, p, name);
  }

  /** A run of name chars up to the end: a variable block whose name runs
      to the end. */
  lemma OpenVariableFacts(input: string, p: nat)
    requires p <= |input|
    requires forall k :: p <= k < |input| ==> IsNameChar(input[k])
    ensures SkipSpace(input, p) == p && BlockKind(input, p) == VariableBlock
    ensures NameAt(input, p) == |input| && NameFrom(input, p) == input[p..]
  {
    if p < |input| {
      VariableKind(input, p);
    }
    NameEndRun(input, p, |input|);
  }

  /** A "{{" starts a block whose text is followed by the rest of the
      rendering. */
  lemma BlockStep(input: string, pos: nat, ctx: map<string, Value>, reg: map<string, Helper>)
    requires At(input, pos, "{{")
    ensures var b := BlockAt(input, pos + 2, ctx, reg);
      var rest := RenderFrom(input, b.next, ctx, reg);
      RenderFrom(input, pos, ctx, reg) == Rendered(b.text + rest.text, b.errors + rest.errors)
  {
  }

  /** A template that is one block ending at the end renders as that
      block. */
  lemma RenderBlock(input: string, text: string, errors: seq<TemplateError>, ctx: map<string, Value>, reg: map<string, Helper>)
    requires At(input, 0, "{{") && BlockAt(input, 2, ctx, reg) == Out(text, errors, |input|)
    ensures Render(input, ctx, reg) == Rendered(text, errors)
  {
    BlockStep(input, 0, ctx, reg);
    assert RenderFrom(input, |input|, ctx, reg) == Rendered("", []);
  }

  /** What the parser reads from "{{" + name + "}}". */
  lemma VariableFacts(input: string, name: string)
    requires IsName(name) && input == "{{" + name + "}}"
    ensures At(input, 0, "{{") && At(input, 2 + |name|, "}}") && |input| == 4 + |name|
    ensures SkipSpace(input, 2) == 2 && BlockKind(input, 2) == VariableBlock
    ensures NameAt(input, 2) == 2 + |name| && NameFrom(input, 2) == name
  {
    AtWhole(input);
    AtSplit(input, 0, "{{" + name, "}}");
    AtSplit(input, 0, "{{", name);
    VariableTagFacts(input, 2, name);
  }

  /** {{name}} renders as the value's to_string; an absent name gives "". */
  lemma VariableTag(name: string, ctx: map<string, Value>, reg: map<string, Helper>)
    requires IsName(name)
    ensures Render("{{" + name + "}}", ctx, reg) == Rendered(ToString(Resolve(ctx, name)), [])
    ensures name !in ctx && '.' !in name ==> Render("{{" + name + "}}", ctx, reg) == Rendered("", [])
  {
    var input := "{{" + name + "}}";
    VariableFacts(input, name);
    BlockStep(input, 0, ctx, reg);
    BlockVariable(input, 2, ctx, reg);
    VariableClosed(input, 2, name, 2 + |name|, ctx);
    assert RenderFrom(input, |input|, ctx, reg) == Rendered("", []);
  }

  /** What the parser reads from "{{" + name. */
  lemma OpenFacts(input: string, name: string)
    requires (forall k :: 0 <= k < |name| ==> IsNameChar(name[k])) && input == "{{" + name
    ensures At(input, 0, "{{") && SkipSpace(input, 2) == 2 && BlockKind(input, 2) == VariableBlock
    ensures NameAt(input, 2) == |input| && NameFrom(input, 2) == name
  {
    assert At(input, 0, "{{") by { assert input[0..2] == "{{"; }
    assert input[2..] == name;
    OpenVariableFacts(input, 2);
  }

  /** A variable block at p whose name, read up to n, is not followed by
      "}}" is left as "{{" and the name (any white space before the name is
      dropped), and the parse goes on from n, right after the name. */
  lemma UnclosedVariable(input: string, p: nat, n: nat, ctx: map<string, Value>, reg: map<string, Helper>)
    requires At(input, p, "{{") && BlockKind(input, SkipSpace(input, p + 2)) == VariableBlock
    requires n == NameAt(input, p + 2) && !At(input, n, "}}")
    ensures RenderFrom(input, p, ctx, reg) ==
      Rendered("{{" + NameFrom(input, p + 2) + RenderFrom(input, n, ctx, reg).text, RenderFrom(input, n, ctx, reg).errors)
  {
    UnclosedBlock(input, p + 2, n, ctx, reg);
    BlockStep(input, p, ctx, reg);
    var rest := RenderFrom(input, n, ctx, reg);
    assert [] + rest.errors == rest.errors;
  }

  /** The unclosed variable block itself: "{{" and the name, up to n. */
  lemma UnclosedBlock(input: string, p: nat, n: nat, ctx: map<string, Value>, reg: map<string, Helper>)
    requires p <= |input| && BlockKind(input, SkipSpace(input, p)) == VariableBlock
    requires n == NameAt(input, p) && !At(input, n, "}}")
    ensures BlockAt(input, p, ctx, reg) == Out("{{" + NameFrom(input, p), [], n)
  {
    var q := SkipSpace(input, p);
    assert SkipSpace(input, q) == q;
    assert BlockAt(input, p, ctx, reg) == KindAt(VariableBlock, input, q, ctx, reg);
    BlockVariable(input, q, ctx, reg);
  }

  /** "{{" and a name at the end of the template is left as it is. */
  lemma UnclosedAtEnd(name: string, ctx: map<string, Value>, reg: map<string, Helper>)
    requires forall k :: 0 <= k < |name| ==> IsNameChar(name[k])
    ensures Render("{{" + name, ctx, reg) == Rendered("{{" + name, [])
  {
    var input := "{{" + name;
    OpenFacts(input, name);
    UnclosedVariable(input, 0, |input|, ctx, reg);
    assert RenderFrom(input, |input|, ctx, reg) == Rendered("", []);
    assert input + "" == input;
  }

  // ---------------------------------------------------------------------
  // Block bodies

  /** pat does not start at k when one of its chars differs. */
  lemma NotOccursAt(s: string, pat: string, k: nat, j: nat)
    requires j < |pat| && k + j < |s| && s[k + j] != pat[j]
    ensures !OccursAt(s, pat, k)
  {
  }

  /** No pattern opening with '{' starts where there is no '{'. */
  lemma NoBraceFree(w: string, pat: string, lo: nat, e: nat)
    requires pat != [] && pat[0] == '{' && e <= |w|
    requires forall k :: lo <= k < e ==> w[k] != '{'
    ensures forall k :: lo <= k < e ==> !OccursAt(w, pat, k)
  {
    forall k | lo <= k < e
      ensures !OccursAt(w, pat, k)
    {
      NotOccursAt(w, pat, k, 0);
    }
  }

  /** pat does not occur in w before e. */
  predicate NoneBefore(w: string, pat: string, e: nat) {
    forall k :: 0 <= k < e ==> !OccursAt(w, pat, k)
  }

  /** The whole of s is at 0. */
  lemma AtWhole(s: string)
    ensures At(s, 0, s)
  {
    assert s[0..|s|] == s;
  }

  /** Where each of five concatenated pieces sits. */
  lemma Pieces(input: string, a: string, b: string, c: string, d: string, e: string)
    requires input == a + b + c + d + e
    ensures At(input, 0, a) && At(input, |a|, b) && At(input, |a| + |b|, c)
    ensures At(input, |a| + |b| + |c|, d) && At(input, |a| + |b| + |c| + |d|, e)
    ensures |input| == |a| + |b| + |c| + |d| + |e|
  {
    AtWhole(input);
    AtSplit(input, 0, a + b + c + d, e);
    AtSplit(input, 0, a + b + c, d);
    AtSplit(input, 0, a + b, c);
    AtSplit(input, 0, a, b);
  }

  /** An opening tag "{{" + keyword. */
  lemma OpenBrace(input: string, tag: string, keyword: string)
    requires tag == "{{" + keyword && At(input, 0, tag)
    ensures At(input, 0, "{{") && At(input, 2, keyword)
  {
    AtSplit(input, 0, "{{", keyword);
  }

  /** The opening tags as "{{" and a keyword. */
  lemma OpenTags()
    ensures "{{#if " == "{{" + "#if " && "{{#each " == "{{" + "#each "
    ensures "{{#for " == "{{" + "#for " && "{{#" == "{{" + "#"
  {
  }

  /** Where each of three concatenated pieces sits. */
  lemma Split3(s: string, p: nat, x: string, y: string, z: string)
    requires At(s, p, x + y + z)
    ensures At(s, p, x) && At(s, p + |x|, y) && At(s, p + |x| + |y|, z)
  {
    AtSplit(s, p, x + y, z);
    AtSplit(s, p, x, y);
  }

  /** Two neighbouring pieces make their concatenation. */
  lemma AtJoin(s: string, p: nat, a: string, b: string)
    requires At(s, p, a) && At(s, p + |a|, b)
    ensures At(s, p, a + b)
  {
    forall k | 0 <= k < |a + b|
      ensures s[p..p + |a + b|][k] == (a + b)[k]
    {
      if k < |a| {
        AtChar(s, p, a, k);
      } else {
        AtChar(s, p + |a|, b, k - |a|);
      }
    }
  }

  /** An occurrence inside a copy of w is an occurrence in w. */
  lemma OccursShift(s: string, b: nat, w: string, pat: string, k: nat)
    requires At(s, b, w) && k + |pat| <= |w|
    ensures OccursAt(s, pat, b + k) <==> OccursAt(w, pat, k)
  {
    forall j | k <= j < k + |pat|
      ensures s[b + j] == w[j]
    {
      AtChar(s, b, w, j);
    }
  }

  /** extract_until on a body followed by its end tag, with no earlier
      end tag: the body, and the cursor after the tag. */
  lemma ContentUntil(input: string, b: nat, e: nat, content: string, endTag: string)
    requires e == b + |content| && At(input, b, content) && At(input, e, endTag)
    requires NoneBefore(content + endTag, endTag, |content|)
    ensures e <= |input| && UntilEnd(input, b, endTag) == e
    ensures UntilNext(input, b, endTag) == e + |endTag|
    ensures input[b..e] == content
  {
    var w := content + endTag;
    AtJoin(input, b, content, endTag);
    forall k | b <= k < b + |content|
      ensures !OccursAt(input, endTag, k)
    {
      OccursShift(input, b, w, endTag, k - b);
    }
    assert OccursAt(w, endTag, |content|);
    OccursShift(input, b, w, endTag, |content|);
    FindFirst(input, endTag, b, b + |content|);
    AtSlice(input, b, w, 0, |content|);
    assert w[0..|content|] == content;
  }

  /** A name followed by a char that cannot continue it is read whole by
      extract_variable_name. */
  lemma NameRun(input: string, q: nat, name: string)
    requires IsName(name) && At(input, q, name)
    requires q + |name| < |input| && !IsNameChar(input[q + |name|])
    ensures SkipSpace(input, q) == q
    ensures NameAt(input, q) == q + |name| && NameFrom(input, q) == name
    ensures forall k :: q <= k < q + |name| ==> IsNameChar(input[k])
  {
    AtChar(input, q, name, 0);
    forall k | q <= k < q + |name|
      ensures IsNameChar(input[k])
    {
      AtChar(input, q, name, k - q);
    }
    NameEndRun(input, q, q + |name|);
  }

  /** A name followed by "}}" is read whole, by extract_variable_name and
      by extract_condition alike. */
  lemma NameTag(input: string, q: nat, name: string)
    requires IsName(name) && At(input, q, name) && At(input, q + |name|, "}}")
    ensures SkipSpace(input, q) == q
    ensures NameAt(input, q) == q + |name| && BraceEnd(input, q, 0) == q + |name|
    ensures NameFrom(input, q) == name
  {
    AtChar(input, q + |name|, "}}", 0);
    NameRun(input, q, name);
    BraceEndRun(input, q, q + |name|);
  }

  /** "#if " opens an if block. */
  lemma IfKind(input: string, p: nat)
    requires At(input, p, "#if ")
    ensures SkipSpace(input, p) == p && BlockKind(input, p) == IfBlock
  {
    AtChar(input, p, "#if ", 0);
    AtChar(input, p, "#if ", 3);
    AtSplit(input, p, "#if", " ");
  }

  /** The opening tag of an if block with a name for its condition. */
  lemma IfHeadName(input: string, p: nat, cond: string)
    requires At(input, p, " ") && IsName(cond) && At(input, p + 1, cond) && At(input, p + 1 + |cond|, "}}")
    ensures IfHead(input, p) == Closed("", cond, p + 3 + |cond|)
  {
    AtChar(input, p, " ", 0);
    NameTag(input, p + 1, cond);
    assert SkipSpace(input, p) == p + 1;
  }

  /** parse_block hands an if block to parse_if_block after "#if". */
  lemma BlockIf(input: string, p: nat, q: nat, ctx: map<string, Value>, reg: map<string, Helper>)
    requires p <= |input| && SkipSpace(input, p) == p && BlockKind(input, p) == IfBlock && q == p + 3
    ensures q <= |input|
    ensures BlockAt(input, p, ctx, reg) == IfAt(input, q, ctx, reg)
  {
    assert KindAt(IfBlock, input, q, ctx, reg) == IfAt(input, q, ctx, reg);
  }

  /** parse_block hands an each block to parse_each_block after "#each". */
  lemma BlockEach(input: string, p: nat, q: nat, ctx: map<string, Value>, reg: map<string, Helper>)
    requires p <= |input| && SkipSpace(input, p) == p && BlockKind(input, p) == EachBlock && q == p + 5
    ensures q <= |input|
    ensures BlockAt(input, p, ctx, reg) == EachAt(input, q, ctx, reg)
  {
    assert KindAt(EachBlock, input, q, ctx, reg) == EachAt(input, q, ctx, reg);
  }

  /** parse_block hands a for block to parse_for_block after "#for". */
  lemma BlockFor(input: string, p: nat, q: nat, ctx: map<string, Value>, reg: map<string, Helper>)
    requires p <= |input| && SkipSpace(input, p) == p && BlockKind(input, p) == ForBlock && q == p + 4
    ensures q <= |input|
    ensures BlockAt(input, p, ctx, reg) == ForAt(input, q, ctx, reg)
  {
    assert KindAt(ForBlock, input, q, ctx, reg) == ForAt(input, q, ctx, reg);
  }

  /** An if block whose tag closes renders the selected branch of its
      body. */
  lemma IfClosed(input: string, q: nat, cond: string, b: nat, e: nat, n: nat, ctx: map<string, Value>, reg: map<string, Helper>)
    requires q <= |input| && IfHead(input, q) == Closed("", cond, b)
    requires b <= e <= |input| && UntilEnd(input, b, "{{/if}}") == e && UntilNext(input, b, "{{/if}}") == n
    ensures IfAt(input, q, ctx, reg) == Out(IfText(input[b..e], Resolve(ctx, cond), ctx, reg), [], n)
  {
  }

  /** "#if ", a condition name and "}}": an if block whose head is
      closed. */
  lemma IfTag(input: string, cond: string)
    requires At(input, 2, "#if ") && IsName(cond) && At(input, 6, cond) && At(input, 6 + |cond|, "}}")
    ensures 5 <= |input| && SkipSpace(input, 2) == 2 && BlockKind(input, 2) == IfBlock
    ensures IfHead(input, 5) == Closed("", cond, 8 + |cond|)
  {
    IfKind(input, 2);
    AtSplit(input, 2, "#if", " ");
    IfHeadName(input, 5, cond);
  }

  /** A body with no {{else}} is all the true branch. */
  lemma NoElse(t: string)
    requires NoBrace(t)
    ensures WhenTrue(t) == t && WhenFalse(t) == ""
  {
    NoBraceFree(t, "{{else}}", 0, |t|);
    FindAbsent(t, "{{else}}", 0);
  }

  /** The first {{else}} splits the body into the two branches. */
  lemma ElseSplit(t: string, f: string)
    requires NoBrace(t)
    ensures WhenTrue(t + "{{else}}" + f) == t && WhenFalse(t + "{{else}}" + f) == f
  {
    var c := t + "{{else}}" + f;
    NoBraceFree(c, "{{else}}", 0, |t|);
    assert OccursAt(c, "{{else}}", |t|);
    FindFirst(c, "{{else}}", 0, |t|);
    assert c[..|t|] == t;
    assert c[|t| + 8..] == f;
  }

  /** Plain text renders to itself. */
  lemma PlainBody(t: string, ctx: map<string, Value>, reg: map<string, Helper>)
    requires NoBrace(t)
    ensures Render(t, ctx, reg) == Rendered(t, [])
  {
    NoBraceIsPlain(t);
    PlainText(t, ctx, reg);
  }

  /** What the parser reads from "{{#if c}}" + body + "{{/if}}": a block
      at 2, an if block whose head closes at b, and the body up to the
      end tag, which ends the template. */
  lemma IfFacts(input: string, cond: string, content: string, b: nat, e: nat)
    requires IsName(cond) && NoneBefore(content + "{{/if}}", "{{/if}}", |content|) && b == 8 + |cond| && e == b + |content|
    requires At(input, 0, "{{#if ") && At(input, 6, cond) && At(input, 6 + |cond|, "}}")
    requires At(input, b, content) && At(input, e, "{{/if}}") && |input| == e + 7
    ensures At(input, 0, "{{") && 5 <= |input| && SkipSpace(input, 2) == 2 && BlockKind(input, 2) == IfBlock
    ensures IfHead(input, 5) == Closed("", cond, b)
    ensures e <= |input| && UntilEnd(input, b, "{{/if}}") == e
    ensures UntilNext(input, b, "{{/if}}") == |input| && input[b..e] == content
  {
    OpenTags();
    OpenBrace(input, "{{#if ", "#if ");
    IfTag(input, cond);
    ContentUntil(input, b, e, content, "{{/if}}");
  }

  /** The if block of "{{#if c}}" + body + "{{/if}}" renders the selected
      branch and ends the template. */
  lemma IfBlockAt(input: string, cond: string, content: string, b: nat, e: nat, ctx: map<string, Value>, reg: map<string, Helper>)
    requires IsName(cond) && NoneBefore(content + "{{/if}}", "{{/if}}", |content|) && b == 8 + |cond| && e == b + |content|
    requires At(input, 0, "{{#if ") && At(input, 6, cond) && At(input, 6 + |cond|, "}}")
    requires At(input, b, content) && At(input, e, "{{/if}}") && |input| == e + 7
    ensures At(input, 0, "{{")
    ensures BlockAt(input, 2, ctx, reg) == Out(IfText(content, Resolve(ctx, cond), ctx, reg), [], |input|)
  {
    IfFacts(input, cond, content, b, e);
    BlockIf(input, 2, 5, ctx, reg);
    IfClosed(input, 5, cond, b, e, |input|, ctx, reg);
  }

  /** The whole template "{{#if c}}" + body + "{{/if}}". */
  lemma IfTemplate(cond: string, content: string, ctx: map<string, Value>, reg: map<string, Helper>)
    requires IsName(cond) && NoneBefore(content + "{{/if}}", "{{/if}}", |content|)
    ensures Render("{{#if " + cond + "}}" + content + "{{/if}}", ctx, reg) == Rendered(IfText(content, Resolve(ctx, cond), ctx, reg), [])
  {
    var input := "{{#if " + cond + "}}" + content + "{{/if}}";
    Pieces(input, "{{#if ", cond, "}}", content, "{{/if}}");
    var b := 8 + |cond|;
    IfBlockAt(input, cond, content, b, b + |content|, ctx, reg);
    RenderBlock(input, IfText(content, Resolve(ctx, cond), ctx, reg), [], ctx, reg);
  }

  /** {{#if c}}t{{/if}} renders t when c is truthy and "" otherwise. */
  lemma IfOnly(cond: string, t: string, ctx: map<string, Value>, reg: map<string, Helper>)
    requires IsName(cond) && NoBrace(t)
    ensures Render("{{#if " + cond + "}}" + t + "{{/if}}", ctx, reg) == Rendered(if Truthy(Resolve(ctx, cond)) then t else "", [])
  {
    var w := t + "{{/if}}";
    NoBraceFree(w, "{{/if}}", 0, |t|);
    IfTemplate(cond, t, ctx, reg);
    NoElse(t);
    PlainBody(t, ctx, reg);
  }

  /** No {{/if}} starts inside t + "{{else}}" + f. */
  lemma ElseBodyOpen(t: string, f: string)
    requires NoBrace(t) && NoBrace(f)
    ensures NoneBefore(t + "{{else}}" + f + "{{/if}}", "{{/if}}", |t + "{{else}}" + f|)
  {
    var content := t + "{{else}}" + f;
    var w := content + "{{/if}}";
    NoBraceFree(w, "{{/if}}", 0, |t|);
    NotOccursAt(w, "{{/if}}", |t|, 2);
    NotOccursAt(w, "{{/if}}", |t| + 1, 1);
    NoBraceFree(w, "{{/if}}", |t| + 2, |content|);
  }

  /** The branch an if block with an else renders. */
  lemma IfTextElse(t: string, f: string, v: Value, ctx: map<string, Value>, reg: map<string, Helper>)
    requires NoBrace(t) && NoBrace(f)
    ensures IfText(t + "{{else}}" + f, v, ctx, reg) == if Truthy(v) then t else f
  {
    ElseSplit(t, f);
    PlainBody(t, ctx, reg);
    PlainBody(f, ctx, reg);
  }

  /** {{#if c}}t{{else}}f{{/if}} renders t when c is truthy and f
      otherwise. */
  lemma IfElse(cond: string, t: string, f: string, ctx: map<string, Value>, reg: map<string, Helper>)
    requires IsName(cond) && NoBrace(t) && NoBrace(f)
    ensures Render("{{#if " + cond + "}}" + t + "{{else}}" + f + "{{/if}}", ctx, reg) == Rendered(if Truthy(Resolve(ctx, cond)) then t else f, [])
  {
    var head := "{{#if " + cond + "}}";
    var content := t + "{{else}}" + f;
    ElseBodyOpen(t, f);
    IfTemplate(cond, content, ctx, reg);
    SeqAssoc(head, t + "{{else}}", f);
    SeqAssoc(head, t, "{{else}}");
    IfTextElse(t, f, Resolve(ctx, cond), ctx, reg);
  }

  // ---------------------------------------------------------------------
  // each and for

  /** What an each or for block renders for its collection: the body once
      per item when it is an array, else "". */
  function LoopText(content: string, ctx: map<string, Value>, variable: string, collection: Value, reg: map<string, Helper>): string {
    if collection.Arr? then Repeat(content, ctx, variable, collection.items, reg) else ""
  }

  /** The rest of a loop block whose body ends at e. */
  lemma LoopClosed(input: string, b: nat, endTag: string, e: nat, n: nat, ctx: map<string, Value>, variable: string, collection: Value, reg: map<string, Helper>)
    requires 0 < b <= e <= |input| && UntilEnd(input, b, endTag) == e && UntilNext(input, b, endTag) == n
    ensures LoopAt(input, b, endTag, ctx, variable, collection, reg) == Out(LoopText(input[b..e], ctx, variable, collection, reg), [], n)
  {
  }

  /** "#each " opens an each block. */
  lemma EachKind(input: string, p: nat)
    requires At(input, p, "#each ")
    ensures SkipSpace(input, p) == p && BlockKind(input, p) == EachBlock
  {
    AtChar(input, p, "#each ", 0);
    AtChar(input, p, "#each ", 1);
    AtChar(input, p, "#each ", 5);
    NotAt(input, p, "#if", 1);
    AtSplit(input, p, "#each", " ");
  }

  /** The opening tag of an each block with a collection name. */
  lemma EachHeadName(input: string, p: nat, name: string)
    requires At(input, p, " ") && IsName(name) && At(input, p + 1, name) && At(input, p + 1 + |name|, "}}")
    ensures EachHead(input, p) == Closed("this", name, p + 3 + |name|)
  {
    AtChar(input, p, " ", 0);
    NameTag(input, p + 1, name);
    assert SkipSpace(input, p) == p + 1;
  }

  lemma EachClosed(input: string, q: nat, name: string, b: nat, ctx: map<string, Value>, reg: map<string, Helper>)
    requires q <= |input| && EachHead(input, q) == Closed("this", name, b)
    ensures EachAt(input, q, ctx, reg) == LoopAt(input, b, "{{/each}}", ctx, "this", Resolve(ctx, name), reg)
  {
  }

  /** "#each ", a collection name and "}}": an each block whose head is
      closed. */
  lemma EachTag(input: string, name: string)
    requires At(input, 2, "#each ") && IsName(name) && At(input, 8, name) && At(input, 8 + |name|, "}}")
    ensures 7 <= |input| && SkipSpace(input, 2) == 2 && BlockKind(input, 2) == EachBlock
    ensures EachHead(input, 7) == Closed("this", name, 10 + |name|)
  {
    EachKind(input, 2);
    AtSplit(input, 2, "#each", " ");
    EachHeadName(input, 7, name);
  }

  /** An each block whose head is closed hands the rest over to the loop
      with `this` as its variable. */
  lemma EachOpen(input: string, name: string, b: nat, ctx: map<string, Value>, reg: map<string, Helper>)
    requires 7 <= |input| && SkipSpace(input, 2) == 2 && BlockKind(input, 2) == EachBlock
    requires EachHead(input, 7) == Closed("this", name, b)
    ensures 0 < b <= |input|
    ensures BlockAt(input, 2, ctx, reg) == LoopAt(input, b, "{{/each}}", ctx, "this", Resolve(ctx, name), reg)
  {
    BlockEach(input, 2, 7, ctx, reg);
    EachClosed(input, 7, name, b, ctx, reg);
  }

  /** What the parser reads from "{{#each xs}}" + body + "{{/each}}". */
  lemma EachFacts(input: string, name: string, content: string, b: nat, e: nat)
    requires IsName(name) && NoneBefore(content + "{{/each}}", "{{/each}}", |content|) && b == 10 + |name| && e == b + |content|
    requires At(input, 0, "{{#each ") && At(input, 8, name) && At(input, 8 + |name|, "}}")
    requires At(input, b, content) && At(input, e, "{{/each}}") && |input| == e + 9
    ensures At(input, 0, "{{") && 7 <= |input| && SkipSpace(input, 2) == 2 && BlockKind(input, 2) == EachBlock
    ensures EachHead(input, 7) == Closed("this", name, b)
    ensures e <= |input| && UntilEnd(input, b, "{{/each}}") == e
    ensures UntilNext(input, b, "{{/each}}") == |input| && input[b..e] == content
  {
    OpenTags();
    OpenBrace(input, "{{#each ", "#each ");
    EachTag(input, name);
    ContentUntil(input, b, e, content, "{{/each}}");
  }

  /** The each block of "{{#each xs}}" + body + "{{/each}}" renders the
      loop and ends the template. */
  lemma EachBlockAt(input: string, name: string, content: string, b: nat, e: nat, ctx: map<string, Value>, reg: map<string, Helper>)
    requires IsName(name) && NoneBefore(content + "{{/each}}", "{{/each}}", |content|) && b == 10 + |name| && e == b + |content|
    requires At(input, 0, "{{#each ") && At(input, 8, name) && At(input, 8 + |name|, "}}")
    requires At(input, b, content) && At(input, e, "{{/each}}") && |input| == e + 9
    ensures At(input, 0, "{{")
    ensures BlockAt(input, 2, ctx, reg) == Out(LoopText(content, ctx, "this", Resolve(ctx, name), reg), [], |input|)
  {
    EachFacts(input, name, content, b, e);
    EachOpen(input, name, b, ctx, reg);
    LoopClosed(input, b, "{{/each}}", e, |input|, ctx, "this", Resolve(ctx, name), reg);
  }

  /** The whole template "{{#each xs}}" + body + "{{/each}}". */
  lemma EachTemplate(name: string, content: string, ctx: map<string, Value>, reg: map<string, Helper>)
    requires IsName(name) && NoneBefore(content + "{{/each}}", "{{/each}}", |content|)
    ensures Render("{{#each " + name + "}}" + content + "{{/each}}", ctx, reg) == Rendered(LoopText(content, ctx, "this", Resolve(ctx, name), reg), [])
  {
    var input := "{{#each " + name + "}}" + content + "{{/each}}";
    Pieces(input, "{{#each ", name, "}}", content, "{{/each}}");
    var b := 10 + |name|;
    EachBlockAt(input, name, content, b, b + |content|, ctx, reg);
    RenderBlock(input, LoopText(content, ctx, "this", Resolve(ctx, name), reg), [], ctx, reg);
  }

  /** n copies of s, one after the other. */
  function Copies(s: string, n: nat): (r: string)
    ensures |r| == n * |s|
  {
    if n == 0 then "" else Copies(s, n - 1) + s
  }

  /** A plain body is repeated as it is, once per item. */
  lemma {:induction false} RepeatPlain(content: string, ctx: map<string, Value>, variable: string, items: seq<Value>, reg: map<string, Helper>)
    requires NoBrace(content)
    ensures Repeat(content, ctx, variable, items, reg) == Copies(content, |items|)
    decreases |items|
  {
    if items != [] {
      RepeatPlain(content, ctx, variable, items[..|items| - 1], reg);
      PlainBody(content, ctx[variable := items[|items| - 1]], reg);
    }
  }

  /** {{#each xs}}body{{/each}} with a plain body renders the body once per
      item of the array xs, and "" when xs is not an array. */
  lemma EachPlain(name: string, body: string, ctx: map<string, Value>, reg: map<string, Helper>)
    requires IsName(name) && NoBrace(body)
    ensures Render("{{#each " + name + "}}" + body + "{{/each}}", ctx, reg)
      == Rendered(match Resolve(ctx, name) case Arr(items) => Copies(body, |items|) case _ => "", [])
  {
    NoBraceFree(body + "{{/each}}", "{{/each}}", 0, |body|);
    EachTemplate(name, body, ctx, reg);
    if Resolve(ctx, name).Arr? {
      RepeatPlain(body, ctx, "this", Resolve(ctx, name).items, reg);
    }
  }

  /** "#for " opens a for block. */
  lemma ForKind(input: string, p: nat)
    requires At(input, p, "#for ")
    ensures SkipSpace(input, p) == p && BlockKind(input, p) == ForBlock
  {
    AtChar(input, p, "#for ", 0);
    AtChar(input, p, "#for ", 1);
    AtChar(input, p, "#for ", 4);
    NotAt(input, p, "#if", 1);
    NotAt(input, p, "#each", 1);
    AtSplit(input, p, "#for", " ");
  }

  /** The rest of a for tag after " in" at t: " ", the collection name and
      "}}". */
  lemma ForTailName(input: string, t: nat, variable: string, name: string)
    requires At(input, t + 3, " ") && IsName(name) && At(input, t + 4, name) && At(input, t + 4 + |name|, "}}")
    ensures ForTail(input, variable, t + 3) == Closed(variable, name, t + 6 + |name|)
  {
    AtChar(input, t + 3, " ", 0);
    NameTag(input, t + 4, name);
    assert SkipSpace(input, t + 3) == t + 4;
  }

  /** parse_for_block reads the variable and "in", then goes on after
      "in". */
  lemma ForHeadStep(input: string, p: nat, q: nat, variable: string, t: nat)
    requires p <= |input| && SkipSpace(input, p) == q && NameAt(input, q) == t && NameFrom(input, q) == variable
    requires t + 3 <= |input| && SkipSpace(input, t) == t + 1 && At(input, t + 1, "in")
    ensures ForHead(input, p) == ForTail(input, variable, t + 3)
  {
  }

  /** The opening tag of a for block up to the collection: " " at 6, the
      variable at 7 and " in " at t. */
  lemma ForHeadName(input: string, variable: string, t: nat)
    requires At(input, 6, " ") && IsName(variable) && At(input, 7, variable)
    requires t == 7 + |variable| && At(input, t, " in ")
    ensures At(input, t + 3, " ") && ForHead(input, 6) == ForTail(input, variable, t + 3)
  {
    AtChar(input, 6, " ", 0);
    Split3(input, t, " ", "in", " ");
    AtChar(input, t, " ", 0);
    AtChar(input, t + 1, "in", 0);
    NameRun(input, 7, variable);
    assert SkipSpace(input, 6) == 7;
    assert SkipSpace(input, t) == t + 1;
    ForHeadStep(input, 6, 7, variable, t);
  }

  lemma ForClosed(input: string, q: nat, variable: string, name: string, b: nat, ctx: map<string, Value>, reg: map<string, Helper>)
    requires q <= |input| && ForHead(input, q) == Closed(variable, name, b)
    ensures ForAt(input, q, ctx, reg) == LoopAt(input, b, "{{/for}}", ctx, variable, Resolve(ctx, name), reg)
  {
  }

  /** "{{#for ", a variable, " in " at t, a collection name and "}}": a
      for block whose head is closed. */
  lemma ForTagAt(input: string, variable: string, name: string, t: nat)
    requires IsName(variable) && IsName(name) && t == 7 + |variable|
    requires At(input, 0, "{{#for ") && At(input, 7, variable) && At(input, t, " in ")
    requires At(input, t + 4, name) && At(input, t + 4 + |name|, "}}")
    ensures At(input, 0, "{{") && 6 <= |input| && SkipSpace(input, 2) == 2 && BlockKind(input, 2) == ForBlock
    ensures ForHead(input, 6) == Closed(variable, name, t + 6 + |name|)
  {
    OpenTags();
    OpenBrace(input, "{{#for ", "#for ");
    ForKind(input, 2);
    AtSplit(input, 2, "#for", " ");
    ForHeadName(input, variable, t);
    ForTailName(input, t, variable, name);
  }

  /** Where the pieces of a for tag sit. */
  lemma ForTagPieces(input: string, variable: string, name: string, t: nat)
    requires At(input, 0, "{{#for " + variable + " in " + name + "}}") && t == 7 + |variable|
    ensures At(input, 0, "{{#for ") && At(input, 7, variable) && At(input, t, " in ")
    ensures At(input, t + 4, name) && At(input, t + 4 + |name|, "}}")
  {
    AtSplit(input, 0, "{{#for " + variable + " in " + name, "}}");
    AtSplit(input, 0, "{{#for " + variable + " in ", name);
    Split3(input, 0, "{{#for ", variable, " in ");
  }

  /** The opening tag "{{#for v in xs}}" at the start. */
  lemma ForTag(input: string, variable: string, name: string)
    requires IsName(variable) && IsName(name) && At(input, 0, "{{#for " + variable + " in " + name + "}}")
    ensures At(input, 0, "{{") && 6 <= |input| && SkipSpace(input, 2) == 2 && BlockKind(input, 2) == ForBlock
    ensures ForHead(input, 6) == Closed(variable, name, 13 + |variable| + |name|)
  {
    var t := 7 + |variable|;
    ForTagPieces(input, variable, name, t);
    ForTagAt(input, variable, name, t);
  }

  /** A for block whose head is closed hands the rest over to the loop
      with its own variable. */
  lemma ForOpen(input: string, variable: string, name: string, b: nat, ctx: map<string, Value>, reg: map<string, Helper>)
    requires 6 <= |input| && SkipSpace(input, 2) == 2 && BlockKind(input, 2) == ForBlock
    requires ForHead(input, 6) == Closed(variable, name, b)
    ensures 0 < b <= |input|
    ensures BlockAt(input, 2, ctx, reg) == LoopAt(input, b, "{{/for}}", ctx, variable, Resolve(ctx, name), reg)
  {
    BlockFor(input, 2, 6, ctx, reg);
    ForClosed(input, 6, variable, name, b, ctx, reg);
  }

  /** What the parser reads from "{{#for v in xs}}" + body + "{{/for}}". */
  lemma ForFacts(input: string, variable: string, name: string, content: string, b: nat, e: nat)
    requires IsName(variable) && IsName(name) && NoneBefore(content + "{{/for}}", "{{/for}}", |content|)
    requires b == 13 + |variable| + |name| && e == b + |content| && At(input, 0, "{{#for " + variable + " in " + name + "}}")
    requires At(input, b, content) && At(input, e, "{{/for}}") && |input| == e + 8
    ensures At(input, 0, "{{") && 6 <= |input| && SkipSpace(input, 2) == 2 && BlockKind(input, 2) == ForBlock
    ensures ForHead(input, 6) == Closed(variable, name, b)
    ensures e <= |input| && UntilEnd(input, b, "{{/for}}") == e
    ensures UntilNext(input, b, "{{/for}}") == |input| && input[b..e] == content
  {
    ForTag(input, variable, name);
    ContentUntil(input, b, e, content, "{{/for}}");
  }

  /** The for block of "{{#for v in xs}}" + body + "{{/for}}" renders the
      loop and ends the template. */
  lemma ForBlockAt(input: string, variable: string, name: string, content: string, b: nat, e: nat, ctx: map<string, Value>, reg: map<string, Helper>)
    requires IsName(variable) && IsName(name) && NoneBefore(content + "{{/for}}", "{{/for}}", |content|)
    requires b == 13 + |variable| + |name| && e == b + |content| && At(input, 0, "{{#for " + variable + " in " + name + "}}")
    requires At(input, b, content) && At(input, e, "{{/for}}") && |input| == e + 8
    ensures At(input, 0, "{{")
    ensures BlockAt(input, 2, ctx, reg) == Out(LoopText(content, ctx, variable, Resolve(ctx, name), reg), [], |input|)
  {
    ForFacts(input, variable, name, content, b, e);
    ForOpen(input, variable, name, b, ctx, reg);
    LoopClosed(input, b, "{{/for}}", e, |input|, ctx, variable, Resolve(ctx, name), reg);
  }

  /** The whole template "{{#for v in xs}}" + body + "{{/for}}". */
  lemma ForTemplate(variable: string, name: string, content: string, ctx: map<string, Value>, reg: map<string, Helper>)
    requires IsName(variable) && IsName(name) && NoneBefore(content + "{{/for}}", "{{/for}}", |content|)
    ensures Render("{{#for " + variable + " in " + name + "}}" + content + "{{/for}}", ctx, reg)
      == Rendered(LoopText(content, ctx, variable, Resolve(ctx, name), reg), [])
  {
    var head := "{{#for " + variable + " in " + name + "}}";
    var input := head + content + "{{/for}}";
    AtWhole(input);
    Split3(input, 0, head, content, "{{/for}}");
    var b := 13 + |variable| + |name|;
    ForBlockAt(input, variable, name, content, b, b + |content|, ctx, reg);
    RenderBlock(input, LoopText(content, ctx, variable, Resolve(ctx, name), reg), [], ctx, reg);
  }

  /** The items' to_string, one after the other. */
  function Shown(items: seq<Value>): (r: string)
    ensures items == [] ==> r == ""
  {
    if items == [] then "" else Shown(items[..|items| - 1]) + ToString(items[|items| - 1])
  }

  /** The body "{{v}}" holds no "{{/for}}" before its end. */
  lemma VariableBodyOpen(variable: string)
    requires IsName(variable)
    ensures NoneBefore("{{" + variable + "}}" + "{{/for}}", "{{/for}}", |"{{" + variable + "}}"|)
  {
    var w := "{{" + variable + "}}" + "{{/for}}";
    var n := |"{{" + variable + "}}"|;
    assert w[2] == variable[0];
    NotOccursAt(w, "{{/for}}", 0, 2);
    NotOccursAt(w, "{{/for}}", 1, 1);
    forall k | 2 <= k < n
      ensures w[k] != '{'
    {
      if k < 2 + |variable| {
        assert w[k] == variable[k - 2];
      } else {
        assert w[k] == '}';
      }
    }
    NoBraceFree(w, "{{/for}}", 2, n);
  }

  /** The body "{{v}}" prints each item once, in order. */
  lemma {:induction false} RepeatVariable(variable: string, ctx: map<string, Value>, items: seq<Value>, reg: map<string, Helper>)
    requires IsName(variable) && '.' !in variable
    ensures Repeat("{{" + variable + "}}", ctx, variable, items, reg) == Shown(items)
    decreases |items|
  {
    if items != [] {
      var item := items[|items| - 1];
      RepeatVariable(variable, ctx, items[..|items| - 1], reg);
      VariableTag(variable, ctx[variable := item], reg);
    }
  }

  /** {{#for v in xs}}{{v}}{{/for}} prints the items of xs one after the
      other, and nothing when xs is not an array. */
  lemma ForVariable(variable: string, name: string, ctx: map<string, Value>, reg: map<string, Helper>)
    requires IsName(variable) && '.' !in variable && IsName(name)
    ensures Render("{{#for " + variable + " in " + name + "}}" + ("{{" + variable + "}}") + "{{/for}}", ctx, reg)
      == Rendered(match Resolve(ctx, name) case Arr(items) => Shown(items) case _ => "", [])
  {
    VariableBodyOpen(variable);
    ForTemplate(variable, name, "{{" + variable + "}}", ctx, reg);
    if Resolve(ctx, name).Arr? {
      RepeatVariable(variable, ctx, Resolve(ctx, name).items, reg);
    }
  }

  // ---------------------------------------------------------------------
  // Helper calls

  /** Text with neither '{' nor '}'. */
  predicate BraceFree(s: string) {
    forall i :: 0 <= i < |s| ==> s[i] != '{' && s[i] != '}'
  }

  /** A keyword: letters only. */
  predicate IsKeyword(k: string) {
    k != [] && forall j :: 0 <= j < |k| ==> Chars.IsAlpha(k[j])
  }

  /** After '#' at p, a name other than the keyword k followed by " " at t
      does not open a block of that keyword. */
  lemma NotKeywordName(input: string, p: nat, name: string, t: nat, k: string)
    requires IsName(name) && At(input, p + 1, name) && t == p + 1 + |name| && At(input, t, " ")
    requires IsKeyword(k) && name != k
    ensures !KeywordAt(input, p, "#" + k)
  {
    AtChar(input, t, " ", 0);
    if |k| < |name| {
      AtChar(input, p + 1, name, |k|);
    } else if |k| == |name| {
      var j :| 0 <= j < |k| && name[j] != k[j];
      AtChar(input, p + 1, name, j);
      NotAt(input, p, "#" + k, j + 1);
    } else {
      NotAt(input, p, "#" + k, 1 + |name|);
    }
  }

  /** "#" and a name that is not if, each or for: a helper call. */
  lemma HelperKind(input: string, name: string, t: nat)
    requires At(input, 2, "#") && IsName(name) && At(input, 3, name) && t == 3 + |name| && At(input, t, " ")
    requires name != "if" && name != "each" && name != "for"
    ensures SkipSpace(input, 2) == 2 && BlockKind(input, 2) == HelperBlock
  {
    AtChar(input, 2, "#", 0);
    NotKeywordName(input, 2, name, t, "if");
    NotKeywordName(input, 2, name, t, "each");
    NotKeywordName(input, 2, name, t, "for");
    NotAt(input, 2, ">", 0);
  }

  /** extract_variable_name, skip_whitespace, extract_helper_args and the
      "}}" match, once their results are known. */
  lemma HelperTagStep(input: string, pos: nat, name: string, t: nat, args: string, e: nat)
    requires pos <= |input| && NameAt(input, pos) == t && NameFrom(input, pos) == name
    requires t < |input| && SkipSpace(input, t) == t + 1 && BraceEnd(input, t + 1, 0) == e
    requires At(input, e, "}}") && input[t + 1..e] == args
    ensures HelperTagAt(input, pos) == HelperTag(name, args, true, e + 2)
  {
  }

  /** A helper tag's name, " ", arguments without braces and "}}". */
  lemma HelperTagRead(input: string, name: string, t: nat, args: string)
    requires IsName(name) && At(input, 3, name) && t == 3 + |name| && At(input, t, " ")
    requires BraceFree(args) && (args == [] || !Chars.IsSpace(args[0]))
    requires At(input, t + 1, args) && At(input, t + 1 + |args|, "}}")
    ensures HelperTagAt(input, 3) == HelperTag(name, args, true, t + 3 + |args|)
  {
    var e := t + 1 + |args|;
    AtChar(input, t, " ", 0);
    AtChar(input, e, "}}", 0);
    NameRun(input, 3, name);
    if args != [] {
      AtChar(input, t + 1, args, 0);
    }
    assert SkipSpace(input, t) == t + 1;
    forall k | t + 1 <= k < e
      ensures input[k] != '{' && input[k] != '}'
    {
      AtChar(input, t + 1, args, k - (t + 1));
    }
    BraceEndRun(input, t + 1, e);
    HelperTagStep(input, 3, name, t, args, e);
  }

  /** What the parser reads from "{{#" + name + " " + args + "}}". */
  lemma HelperFacts(input: string, name: string, t: nat, args: string)
    requires IsName(name) && name != "if" && name != "each" && name != "for"
    requires BraceFree(args) && (args == [] || !Chars.IsSpace(args[0]))
    requires At(input, 0, "{{#") && At(input, 3, name) && t == 3 + |name| && At(input, t, " ")
    requires At(input, t + 1, args) && At(input, t + 1 + |args|, "}}")
    ensures At(input, 0, "{{") && 2 < |input| && SkipSpace(input, 2) == 2 && BlockKind(input, 2) == HelperBlock
    ensures HelperTagAt(input, 3) == HelperTag(name, args, true, t + 3 + |args|)
  {
    OpenTags();
    OpenBrace(input, "{{#", "#");
    HelperKind(input, name, t);
    HelperTagRead(input, name, t, args);
  }

  /** Where the pieces of a helper tag sit. */
  lemma HelperPieces(input: string, name: string, t: nat, args: string)
    requires input == "{{#" + name + " " + args + "}}" && t == 3 + |name|
    ensures At(input, 0, "{{#") && At(input, 3, name) && At(input, t, " ")
    ensures At(input, t + 1, args) && At(input, t + 1 + |args|, "}}") && |input| == t + 3 + |args|
  {
    Pieces(input, "{{#", name, " ", args, "}}");
  }

  /** parse_block hands a helper call to parse_helper_call after the '#'. */
  lemma BlockHelper(input: string, p: nat, q: nat, ctx: map<string, Value>, reg: map<string, Helper>)
    requires p < |input| && SkipSpace(input, p) == p && BlockKind(input, p) == HelperBlock && q == p + 1
    ensures BlockAt(input, p, ctx, reg) == HelperAt(input, q, ctx, reg)
  {
    assert KindAt(HelperBlock, input, p + 0, ctx, reg) == HelperAt(input, q, ctx, reg);
  }

  /** The helper block of "{{#" + name + " " + args + "}}" reads the whole
      tag. */
  lemma HelperBlockAt(input: string, name: string, t: nat, args: string, ctx: map<string, Value>, reg: map<string, Helper>)
    requires IsName(name) && name != "if" && name != "each" && name != "for"
    requires BraceFree(args) && (args == [] || !Chars.IsSpace(args[0]))
    requires At(input, 0, "{{#") && At(input, 3, name) && t == 3 + |name| && At(input, t, " ")
    requires At(input, t + 1, args) && At(input, t + 1 + |args|, "}}") && |input| == t + 3 + |args|
    ensures At(input, 0, "{{") && HelperTagAt(input, 3) == HelperTag(name, args, true, |input|)
    ensures BlockAt(input, 2, ctx, reg) == HelperAt(input, 3, ctx, reg)
  {
    HelperFacts(input, name, t, args);
    BlockHelper(input, 2, 3, ctx, reg);
  }

  /** {{#name args}}: an unknown helper prints nothing and records a
      HELPER_ERROR; a known one prints what it returns for the arguments,
      or nothing and a HELPER_ERROR with the message it throws. */
  lemma HelperTemplate(name: string, args: string, ctx: map<string, Value>, reg: map<string, Helper>)
    requires IsName(name) && name != "if" && name != "each" && name != "for"
    requires BraceFree(args) && (args == [] || !Chars.IsSpace(args[0]))
    ensures var input := "{{#" + name + " " + args + "}}";
      Render(input, ctx, reg) ==
        if name !in reg then Rendered("", [TemplateError(HelperError, "Unknown helper: " + name, |input|)])
        else match Call(reg[name], Arguments(ctx, args, 0))
          case Ok(text) => Rendered(text, [])
          case Err(e) => Rendered("", [TemplateError(HelperError, "Helper '" + name + "' error: " + e, |input|)])
  {
    var input := "{{#" + name + " " + args + "}}";
    var t := 3 + |name|;
    HelperPieces(input, name, t, args);
    HelperBlockAt(input, name, t, args, ctx, reg);
    var o := HelperAt(input, 3, ctx, reg);
    RenderBlock(input, o.text, o.errors, ctx, reg);
  }
}
