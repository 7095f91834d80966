/** The template mini-language of parsers/template/template_engine.hpp and
    parsers/template/template_engine.cpp: TemplateValue, the rendering
    Parser with its cursor, dotted lookup and the built-in string helpers.

    The helper registry, a static global in the source, is a parameter of
    rendering.  The program never sets a partial loader, so a partial
    always renders "" with a PARSE_ERROR. */
module Template {
  import opened Wrappers
  import opened StdString
  import Chars
  import FileUtils

  // ---------------------------------------------------------------------
  // TemplateValue

  /** TemplateValue without the NUMBER type.  A DATE keeps the text
      std::put_time prints for it in the local time zone. */
  datatype Value =
    | Str(s: string)
    | Arr(items: seq<Value>)
    | Bool(b: bool)
    | Obj(fields: map<string, Value>)
    | Date(shown: string)

  /** TemplateValue(): the STRING "". */
  const Default: Value := Str("")

  /** is_truthy. */
  predicate Truthy(v: Value) {
    match v
    case Bool(b) => b
    case Str(s) => s != []
    case Arr(items) => items != []
    case Obj(fields) => fields != map[]
    case Date(_) => true
  }

  /** to_string. */
  function ToString(v: Value): string {
    match v
    case Str(s) => s
    case Bool(b) => if b then "true" else "false"
    case Arr(_) => "[array]"
    case Obj(_) => "[object]"
    case Date(shown) => shown
  }

  /** TemplateValue(const std::vector<std::string> &): an ARRAY of STRING
      values in the same order. */
  function FromStrings(xs: seq<string>): (v: Value)
    ensures v.Arr? && |v.items| == |xs|
    ensures forall i :: 0 <= i < |xs| ==> v.items[i] == Str(xs[i])
  {
    Arr(seq(|xs|, i requires 0 <= i < |xs| => Str(xs[i])))
  }

  /** TemplateValue(const std::map<std::string, std::string> &): an OBJECT
      with the same keys, each mapped to a STRING value. */
  function FromStringMap(m: map<string, string>): (v: Value)
    ensures v.Obj? && v.fields.Keys == m.Keys
    ensures forall k :: k in m ==> v.fields[k] == Str(m[k])
  {
    Obj(map k | k in m :: Str(m[k]))
  }

  /** get_nested_property: the value at the path, or "" when a key is
      missing or a value on the way is not an object. */
  function Nested(v: Value, path: seq<string>): (r: Value)
    ensures path == [] ==> r == v
    ensures path != [] && (!v.Obj? || path[0] !in v.fields) ==> r == Default
    decreases |path|
  {
    if path == [] then v
    else if !v.Obj? || path[0] !in v.fields then Default
    else if |path| == 1 then v.fields[path[0]]
    else Nested(v.fields[path[0]], path[1..])
  }

  // ---------------------------------------------------------------------
  // split_path and variable lookup

  /** What getline(ss, part, '.') has read of a path: the non-empty parts
      already completed and the part being read. */
  datatype Split = Split(parts: seq<string>, current: string)

  /** The parts once the stream ends: the last one counts if non-empty. */
  function Flush(sp: Split): seq<string> {
    if sp.current == [] then sp.parts else sp.parts + [sp.current]
  }

  function Scan(s: string): Split
    decreases |s|
  {
    if s == [] then Split([], "")
    else
      var sp := Scan(s[..|s| - 1]);
      if s[|s| - 1] == '.' then Split(Flush(sp), "")
      else Split(sp.parts, sp.current + [s[|s| - 1]])
  }

  /** split_path: the pieces between dots, empty ones dropped. */
  function PathParts(path: string): seq<string> {
    Flush(Scan(path))
  }

  /** split_path's getline loop. */
  method SplitPath(path: string) returns (parts: seq<string>)
    ensures parts == PathParts(path)
  {
    parts := [];
    var part := "";
    var i := 0;
    while i < |path|
      invariant i <= |path|
      invariant Scan(path[..i]) == Split(parts, part)
    {
      assert path[..i + 1][..i] == path[..i];
      if path[i] == '.' {
        if part != [] {
          parts := parts + [part];
        }
        part := "";
      } else {
        part := part + [path[i]];
      }
      i := i + 1;
    }
    assert path[..i] == path;
    if part != [] {
      parts := parts + [part];
    }
  }

  /** resolve_variable: a dotted name is looked up level by level, any
      other name in the context, "" when absent. */
  function Resolve(ctx: map<string, Value>, name: string): Value {
    if '.' in name then ResolveNested(ctx, name)
    else if name in ctx then ctx[name]
    else Default
  }

  /** resolve_nested_variable. */
  function ResolveNested(ctx: map<string, Value>, path: string): Value {
    var parts := PathParts(path);
    if parts == [] then Default
    else if parts[0] !in ctx then Default
    else if |parts| == 1 then ctx[parts[0]]
    else Nested(ctx[parts[0]], parts[1..])
  }

  // ---------------------------------------------------------------------
  // Helpers

  /** A registered helper: the five built-ins the model covers, or one whose
      result (or exception message) is given. */
  datatype Helper =
    | Upper
    | Lower
    | Capitalize
    | Length
    | Join
    | Custom(apply: seq<Value> -> Result<string>)

  /** The built-ins of register_default_helpers that the model covers. */
  const DefaultHelpers: map<string, Helper> :=
    map["upper" := Upper, "lower" := Lower, "capitalize" := Capitalize, "length" := Length, "join" := Join]

  /** The registry render uses: the defaults when nothing is registered. */
  function Registry(reg: map<string, Helper>): map<string, Helper> {
    if |reg| == 0 then DefaultHelpers else reg
  }

  /** The capitalize helper's text: the first char upper-cased. */
  function Capitalized(s: string): (r: string)
    ensures |r| == |s|
    ensures s != [] ==> r[0] == Chars.ToUpper(s[0]) && r[1..] == s[1..]
  {
    if s == [] then s else [Chars.ToUpper(s[0])] + s[1..]
  }

  /** The length helper's text: the size of a string, array or object. */
  function LengthText(args: seq<Value>): string {
    if args == [] then "0"
    else match args[0]
      case Str(s) => NatToString(|s|)
      case Arr(items) => NatToString(|items|)
      case Obj(fields) => NatToString(|fields|)
      case _ => "0"
  }

  /** The to_string of each item. */
  function Strings(items: seq<Value>): (r: seq<string>)
    ensures |r| == |items| && forall i :: 0 <= i < |items| ==> r[i] == ToString(items[i])
  {
    seq(|items|, i requires 0 <= i < |items| => ToString(items[i]))
  }

  /** The join helper's text: the items' to_string joined by the separator
      (", " unless a second argument is given); "" for a non-array. */
  function JoinText(args: seq<Value>): string {
    if args == [] || !args[0].Arr? then ""
    else FileUtils.JoinSpec(Strings(args[0].items), if |args| > 1 then ToString(args[1]) else ", ")
  }

  /** The result of calling a helper; only a custom one can throw. */
  function Call(h: Helper, args: seq<Value>): Result<string> {
    match h
    case Upper => Ok(if args == [] then "" else Chars.Upper(ToString(args[0])))
    case Lower => Ok(if args == [] then "" else Chars.Lower(ToString(args[0])))
    case Capitalize => Ok(if args == [] then "" else Capitalized(ToString(args[0])))
    case Length => Ok(LengthText(args))
    case Join => Ok(JoinText(args))
    case Custom(apply) => apply(args)
  }

  /** The join helper's loop. */
  method JoinHelper(args: seq<Value>) returns (r: string)
    ensures r == JoinText(args)
  {
    if args == [] || !args[0].Arr? {
      return "";
    }
    var separator := ", ";
    if |args| > 1 {
      separator := ToString(args[1]);
    }
    var items := args[0].items;
    ghost var texts := Strings(items);
    r := "";
    var i := 0;
    while i < |items|
      invariant i <= |items|
      invariant r == FileUtils.JoinSpec(texts[..i], separator)
    {
      assert texts[..i + 1][..i] == texts[..i];
      if i > 0 {
        r := r + separator;
      }
      r := r + ToString(items[i]);
      i := i + 1;
    }
    assert texts[..i] == texts;
  }

  // ---------------------------------------------------------------------
  // Helper arguments

  /** The end of the run of non-space chars from i. */
  function WordEnd(s: string, i: nat): (e: nat)
    requires i <= |s|
    ensures i <= e <= |s|
    ensures e < |s| ==> Chars.IsSpace(s[e])
    ensures i < |s| && !Chars.IsSpace(s[i]) ==> i < e
    decreases |s| - i
  {
    if i < |s| && !Chars.IsSpace(s[i]) then WordEnd(s, i + 1) else i
  }

  /** substr(1, length - 2): the text between the quotes; a lone quote
      gives "" (the length wraps round to npos). */
  function Literal(w: string): string {
    if |w| >= 2 then w[1..|w| - 1] else ""
  }

  /** One helper argument: a word in matching double or single quotes is a
      literal, any other word names a variable. */
  function Argument(ctx: map<string, Value>, w: string): Value
    requires w != []
  {
    if (w[0] == '"' && w[|w| - 1] == '"') || (w[0] == '\'' && w[|w| - 1] == '\'') then Str(Literal(w))
    else Resolve(ctx, w)
  }

  /** The arguments `ss >> arg` reads from s[i..]: one per word, in order. */
  function Arguments(ctx: map<string, Value>, s: string, i: nat): (args: seq<Value>)
    requires i <= |s|
    decreases |s| - i
  {
    var j := SkipSpace(s, i);
    if j == |s| then [] else [Argument(ctx, s[j..WordEnd(s, j)])] + Arguments(ctx, s, WordEnd(s, j))
  }

  // ---------------------------------------------------------------------
  // Cursor primitives

  predicate IsNameChar(c: char) { Chars.IsAlnum(c) || c == '_' || c == '.' }

  /** The end of the run of name chars from i. */
  function NameEnd(s: string, i: nat): (e: nat)
    requires i <= |s|
    ensures i <= e <= |s|
    ensures e < |s| ==> !IsNameChar(s[e])
    decreases |s| - i
  {
    if i < |s| && IsNameChar(s[i]) then NameEnd(s, i + 1) else i
  }

  /** Where extract_variable_name stops: white space skipped, then a run
      of name chars. */
  function NameAt(s: string, i: nat): (e: nat)
    requires i <= |s|
    ensures SkipSpace(s, i) <= e <= |s|
  {
    NameEnd(s, SkipSpace(s, i))
  }

  /** The name extract_variable_name reads from i. */
  function NameFrom(s: string, i: nat): string
    requires i <= |s|
  {
    s[SkipSpace(s, i)..NameAt(s, i)]
  }

  /** Where extract_condition stops: the first '}' outside the '{' it has
      opened, or the end. */
  function BraceEnd(s: string, i: nat, depth: nat): (e: nat)
    requires i <= |s|
    ensures i <= e <= |s|
    ensures e < |s| ==> s[e] == '}'
    decreases |s| - i
  {
    if i == |s| then i
    else if s[i] == '{' then BraceEnd(s, i + 1, depth + 1)
    else if s[i] == '}' then (if depth == 0 then i else BraceEnd(s, i + 1, depth - 1))
    else BraceEnd(s, i + 1, depth)
  }

  /** match_keyword: the keyword at i, followed by the end, white space
      or '}'. */
  predicate KeywordAt(s: string, i: nat, keyword: string) {
    At(s, i, keyword) && (i + |keyword| == |s| || Chars.IsSpace(s[i + |keyword|]) || s[i + |keyword|] == '}')
  }

  /** Where extract_until's text ends: at the first end pattern from i, or
      at the end. */
  function UntilEnd(s: string, i: nat, pattern: string): (e: nat)
    requires i <= |s|
    ensures i <= e <= |s|
  {
    match Find(s, pattern, i)
    case None => |s|
    case Some(e) => e
  }

  /** Where extract_until leaves the cursor: after the end pattern, or at
      the end. */
  function UntilNext(s: string, i: nat, pattern: string): (n: nat)
    requires i <= |s|
    ensures UntilEnd(s, i, pattern) <= n <= |s|
  {
    match Find(s, pattern, i)
    case None => |s|
    case Some(e) => e + |pattern|
  }

  /** The branch an if block renders when its condition holds: the text
      before the first {{else}}, or all of it. */
  function WhenTrue(content: string): (t: string)
    ensures |t| <= |content|
  {
    match Find(content, "{{else}}", 0)
    case None => content
    case Some(e) => content[..e]
  }

  /** The branch after the first {{else}}, or "". */
  function WhenFalse(content: string): (t: string)
    ensures |t| <= |content|
  {
    match Find(content, "{{else}}", 0)
    case None => ""
    case Some(e) => content[e + 8..]
  }

  // ---------------------------------------------------------------------
  // Rendering

  datatype ErrorKind = SyntaxError | VariableNotFound | HelperError | ParseError

  /** TemplateError: its kind, message and the cursor position. */
  datatype TemplateError = TemplateError(kind: ErrorKind, message: string, position: nat)

  /** The text and errors of a whole rendering. */
  datatype Rendered = Rendered(text: string, errors: seq<TemplateError>)

  /** The text and errors of one block and the position after it. */
  datatype Out = Out(text: string, errors: seq<TemplateError>, next: nat)

  /** Parser::parse on a template: the text it renders and the errors it
      records (those of nested parsers are not kept). */
  function Render(input: string, ctx: map<string, Value>, reg: map<string, Helper>): Rendered
    decreases |input|, |input|, 6
  {
    RenderFrom(input, 0, ctx, reg)
  }

  /** The parse loop from pos, one step at a time. */
  function RenderFrom(input: string, pos: nat, ctx: map<string, Value>, reg: map<string, Helper>): Rendered
    requires pos <= |input|
    decreases |input|, |input| - pos, 5
  {
    if pos == |input| then Rendered("", [])
    else
      var step := StepAt(input, pos, ctx, reg);
      var rest := RenderFrom(input, step.next, ctx, reg);
      Rendered(step.text + rest.text, step.errors + rest.errors)
  }

  /** One step of the parse loop: "{{" opens a block, any other char is
      copied. */
  function StepAt(input: string, pos: nat, ctx: map<string, Value>, reg: map<string, Helper>): (r: Out)
    requires pos < |input|
    ensures pos < r.next <= |input|
    decreases |input|, |input| - pos, 4
  {
    if At(input, pos, "{{") then BlockAt(input, pos + 2, ctx, reg)
    else Out([input[pos]], [], pos + 1)
  }

  /** The kinds of block parse_block tells apart. */
  datatype Kind = IfBlock | EachBlock | ForBlock | PartialBlock | HelperBlock | VariableBlock

  /** parse_block's choice at p: the keywords #if, #each, #for and > in
      that order, then '#' for a helper call, else a variable. */
  function BlockKind(input: string, p: nat): (kind: Kind)
    requires p <= |input|
    ensures p + KeywordLength(kind) <= |input|
    ensures kind == HelperBlock ==> p < |input|
  {
    if KeywordAt(input, p, "#if") then IfBlock
    else if KeywordAt(input, p, "#each") then EachBlock
    else if KeywordAt(input, p, "#for") then ForBlock
    else if KeywordAt(input, p, ">") then PartialBlock
    else if p < |input| && input[p] == '#' then HelperBlock
    else VariableBlock
  }

  /** The length of the keyword a kind of block starts with. */
  function KeywordLength(kind: Kind): nat {
    match kind
    case IfBlock => 3
    case EachBlock => 5
    case ForBlock => 4
    case PartialBlock => 1
    case _ => 0
  }

  /** parse_block after "{{": white space skipped, then the block its kind
      names, from after the keyword. */
  function BlockAt(input: string, pos: nat, ctx: map<string, Value>, reg: map<string, Helper>): (r: Out)
    requires pos <= |input|
    ensures pos <= r.next <= |input|
    decreases |input|, |input| - pos, 3
  {
    var p := SkipSpace(input, pos);
    var kind := BlockKind(input, p);
    KindAt(kind, input, p + KeywordLength(kind), ctx, reg)
  }

  /** The block of the given kind, from after its keyword. */
  function KindAt(kind: Kind, input: string, pos: nat, ctx: map<string, Value>, reg: map<string, Helper>): (r: Out)
    requires pos <= |input|
    requires kind == HelperBlock ==> pos < |input|
    ensures pos <= r.next <= |input|
    decreases |input|, |input| - pos, 2
  {
    match kind
    case IfBlock => IfAt(input, pos, ctx, reg)
    case EachBlock => EachAt(input, pos, ctx, reg)
    case ForBlock => ForAt(input, pos, ctx, reg)
    case PartialBlock => PartialAt(input, pos)
    case HelperBlock => HelperAt(input, pos + 1, ctx, reg)
    case VariableBlock => VariableAt(input, pos, ctx)
  }

  /** What the opening tag of an if, each or for block reads: the text
      left in the output when the tag does not close, with the cursor where
      reading stopped; or the loop variable and the name the tag gives (the
      condition of an if), with the cursor after its "}}". */
  datatype Head = Unclosed(text: string, next: nat) | Closed(variable: string, name: string, next: nat)

  /** The opening tag of parse_if_block: the condition up to its '}',
      which must be followed by "}}". */
  function IfHead(input: string, pos: nat): (h: Head)
    requires pos <= |input|
    ensures pos <= h.next <= |input|
    ensures h.Closed? <==> At(input, BraceEnd(input, SkipSpace(input, pos), 0), "}}")
    ensures h.Closed? ==> 2 <= h.next
  {
    var p := SkipSpace(input, pos);
    var c := BraceEnd(input, p, 0);
    if At(input, c, "}}") then Closed("", input[p..c], c + 2) else Unclosed("{{#if " + input[p..c], c)
  }

  /** The opening tag of parse_each_block: a collection name and "}}";
      the loop variable is `this`. */
  function EachHead(input: string, pos: nat): (h: Head)
    requires pos <= |input|
    ensures pos <= h.next <= |input|
    ensures h.Closed? ==> 2 <= h.next && h.variable == "this"
  {
    var p := SkipSpace(input, pos);
    var n := NameAt(input, p);
    if At(input, n, "}}") then Closed("this", NameFrom(input, p), n + 2) else Unclosed("{{#each " + NameFrom(input, p), n)
  }

  /** The opening tag of parse_for_block: a variable name, "in", a
      collection name and "}}". */
  function ForHead(input: string, pos: nat): (h: Head)
    requires pos <= |input|
    ensures pos <= h.next <= |input|
    ensures h.Closed? ==> 2 <= h.next
  {
    var p := SkipSpace(input, pos);
    var variable := NameFrom(input, p);
    var q := SkipSpace(input, NameAt(input, p));
    if !At(input, q, "in") then Unclosed("{{#for " + variable, q)
    else ForTail(input, variable, q + 2)
  }

  /** The rest of a for tag after "in": the collection name and "}}". */
  function ForTail(input: string, variable: string, pos: nat): (h: Head)
    requires pos <= |input|
    ensures pos <= h.next <= |input|
    ensures h.Closed? ==> 2 <= h.next && h.variable == variable
  {
    var r := SkipSpace(input, pos);
    var m := NameAt(input, r);
    if !At(input, m, "}}") then Unclosed("{{#for " + variable + " in " + NameFrom(input, r), m)
    else Closed(variable, NameFrom(input, r), m + 2)
  }

  /** parse_if_block: after the opening tag, the body up to the first
      {{/if}}, of which the branch the condition selects is rendered. */
  function IfAt(input: string, pos: nat, ctx: map<string, Value>, reg: map<string, Helper>): (r: Out)
    requires pos <= |input|
    ensures pos <= r.next <= |input|
    ensures r.errors == []
    decreases |input|, |input| - pos, 1
  {
    match IfHead(input, pos)
    case Unclosed(text, n) => Out(text, [], n)
    case Closed(_, condition, b) =>
      var content := input[b..UntilEnd(input, b, "{{/if}}")];
      Out(IfText(content, Resolve(ctx, condition), ctx, reg), [], UntilNext(input, b, "{{/if}}"))
  }

  /** The rendered branch of an if block. */
  function IfText(content: string, v: Value, ctx: map<string, Value>, reg: map<string, Helper>): string
    decreases |content|, |content|, 7
  {
    if Truthy(v) then Render(WhenTrue(content), ctx, reg).text
    else if WhenFalse(content) != [] then Render(WhenFalse(content), ctx, reg).text
    else ""
  }

  /** parse_each_block: the body rendered once per item with `this`
      bound to it. */
  function EachAt(input: string, pos: nat, ctx: map<string, Value>, reg: map<string, Helper>): (r: Out)
    requires pos <= |input|
    ensures pos <= r.next <= |input|
    ensures r.errors == []
    decreases |input|, |input| - pos, 1
  {
    match EachHead(input, pos)
    case Unclosed(text, n) => Out(text, [], n)
    case Closed(variable, name, b) => LoopAt(input, b, "{{/each}}", ctx, variable, Resolve(ctx, name), reg)
  }

  /** parse_for_block: the body rendered once per item with the variable
      bound to it. */
  function ForAt(input: string, pos: nat, ctx: map<string, Value>, reg: map<string, Helper>): (r: Out)
    requires pos <= |input|
    ensures pos <= r.next <= |input|
    ensures r.errors == []
    decreases |input|, |input| - pos, 1
  {
    match ForHead(input, pos)
    case Unclosed(text, n) => Out(text, [], n)
    case Closed(variable, name, b) => LoopAt(input, b, "{{/for}}", ctx, variable, Resolve(ctx, name), reg)
  }

  /** The rest of an each or for block from b: the body up to the end tag,
      rendered once per item when the collection is an array, else "". */
  function LoopAt(input: string, b: nat, endTag: string, ctx: map<string, Value>, variable: string, collection: Value, reg: map<string, Helper>): (r: Out)
    requires 0 < b <= |input|
    ensures b <= r.next <= |input|
    ensures r.errors == []
    decreases |input|, |input| - b, 0
  {
    var content := input[b..UntilEnd(input, b, endTag)];
    Out(if collection.Arr? then Repeat(content, ctx, variable, collection.items, reg) else "", [], UntilNext(input, b, endTag))
  }

  /** The body rendered once per item, in order, with the variable bound
      to the item. */
  function Repeat(content: string, ctx: map<string, Value>, variable: string, items: seq<Value>, reg: map<string, Helper>): string
    decreases |content|, |content|, 7 + |items|
  {
    if items == [] then ""
    else
      Repeat(content, ctx, variable, items[..|items| - 1], reg) +
      Render(content, ctx[variable := items[|items| - 1]], reg).text
  }

  /** parse_variable: the value's to_string when "}}" follows the name,
      else "{{" and the name, left as text. */
  function VariableAt(input: string, pos: nat, ctx: map<string, Value>): (r: Out)
    requires pos <= |input|
    ensures pos <= r.next <= |input|
    ensures r.errors == []
  {
    var n := NameAt(input, pos);
    if !At(input, n, "}}") then Out("{{" + NameFrom(input, pos), [], n)
    else Out(ToString(Resolve(ctx, NameFrom(input, pos))), [], n + 2)
  }

  /** The opening tag of parse_helper_call after '#': the helper name,
      the argument text up to its '}', and whether "}}" follows. */
  datatype HelperTag = HelperTag(name: string, args: string, closed: bool, next: nat)

  function HelperTagAt(input: string, pos: nat): (h: HelperTag)
    requires pos <= |input|
    ensures pos <= h.next <= |input|
    ensures h.closed <==> At(input, BraceEnd(input, SkipSpace(input, NameAt(input, pos)), 0), "}}")
  {
    var p := SkipSpace(input, NameAt(input, pos));
    var a := BraceEnd(input, p, 0);
    var closed := At(input, a, "}}");
    HelperTag(NameFrom(input, pos), input[p..a], closed, if closed then a + 2 else a)
  }

  /** parse_helper_call after '#': the helper applied to its arguments,
      or the error the tag or the helper gives. */
  function HelperAt(input: string, pos: nat, ctx: map<string, Value>, reg: map<string, Helper>): (r: Out)
    requires pos <= |input|
    ensures pos <= r.next <= |input|
  {
    var h := HelperTagAt(input, pos);
    if !h.closed then
      Out("{{#" + h.name + " " + h.args, [TemplateError(SyntaxError, "Unclosed helper call: " + h.name, h.next)], h.next)
    else if h.name !in reg then
      Out("", [TemplateError(HelperError, "Unknown helper: " + h.name, h.next)], h.next)
    else match Call(reg[h.name], Arguments(ctx, h.args, 0))
      case Ok(text) => Out(text, [], h.next)
      case Err(e) => Out("", [TemplateError(HelperError, "Helper '" + h.name + "' error: " + e, h.next)], h.next)
  }

  /** parse_partial with no partial loader configured. */
  function PartialAt(input: string, pos: nat): (r: Out)
    requires pos <= |input|
    ensures pos <= r.next <= |input|
  {
    var name := NameFrom(input, SkipSpace(input, pos));
    var n := NameAt(input, SkipSpace(input, pos));
    if !At(input, n, "}}") then
      Out("{{>" + name, [TemplateError(SyntaxError, "Unclosed partial: " + name, n)], n)
    else Out("", [TemplateError(ParseError, "No partial loader configured", n + 2)], n + 2)
  }

  // ---------------------------------------------------------------------
  // The parser

  /** TemplateEngine::Parser: the template, the context, the registry the
      engine holds, the cursor and the errors recorded so far. */
  class Parser {
    const input: string
    const context: map<string, Value>
    const helpers: map<string, Helper>
    var pos: nat
    var errors: seq<TemplateError>

    constructor(input: string, context: map<string, Value>, helpers: map<string, Helper>)
      ensures this.input == input && this.context == context && this.helpers == helpers
      ensures pos == 0 && errors == []
    {
      this.input := input;
      this.context := context;
      this.helpers := helpers;
      pos := 0;
      errors := [];
    }

    /** peek(): the char at the cursor, '\0' at the end. */
    function Peek(): char
      reads this
    {
      if pos < |input| then input[pos] else '\0'
    }

    /** at_end(). */
    predicate AtEnd()
      reads this
    {
      pos >= |input|
    }

    /** parse(): the whole template rendered from the start. */
    method Parse() returns (text: string)
      modifies this
      ensures pos == |input|
      ensures text == Render(input, context, helpers).text
      ensures errors == old(errors) + Render(input, context, helpers).errors
      decreases |input|, 6
    {
      pos := 0;
      text := "";
      while !AtEnd()
        invariant pos <= |input|
        invariant text + RenderFrom(input, pos, context, helpers).text == Render(input, context, helpers).text
        invariant errors + RenderFrom(input, pos, context, helpers).errors == old(errors) + Render(input, context, helpers).errors
        decreases |input| - pos
      {
        ghost var errorsBefore := errors;
        var piece := ParseStep();
        ghost var rest := RenderFrom(input, pos, context, helpers);
        SeqAssoc(text, piece, rest.text);
        SeqAssoc(errorsBefore, errors[|errorsBefore|..], rest.errors);
        text := text + piece;
      }
    }

    /** One pass of the loop in parse(): a block after "{{", else the
        char at the cursor. */
    method ParseStep() returns (text: string)
      requires pos < |input|
      modifies this
      ensures var r := StepAt(input, old(pos), context, helpers);
        text == r.text && pos == r.next && errors == old(errors) + r.errors
      decreases |input|, 5
    {
      var block := Match("{{");
      if block {
        text := ParseBlock();
      } else {
        var c := Advance();
        text := [c];
      }
    }

    /** parse_block(), after "{{". */
    method ParseBlock() returns (text: string)
      requires pos <= |input|
      modifies this
      ensures var b := BlockAt(input, old(pos), context, helpers);
        text == b.text && pos == b.next && errors == old(errors) + b.errors
      decreases |input|, 4
    {
      SkipWhitespace();
      var kind := ReadKind();
      text := ParseKind(kind);
    }

    /** The dispatch of parse_block() on the kind of block read. */
    method ParseKind(kind: Kind) returns (text: string)
      requires pos <= |input|
      requires kind == HelperBlock ==> pos < |input|
      modifies this
      ensures var b := KindAt(kind, input, old(pos), context, helpers);
        text == b.text && pos == b.next && errors == old(errors) + b.errors
      decreases |input|, 3
    {
      match kind {
        case IfBlock => text := ParseIfBlock();
        case EachBlock => text := ParseEachBlock();
        case ForBlock => text := ParseForBlock();
        case PartialBlock => text := ParsePartial();
        case HelperBlock => text := ParseHelperCall();
        case VariableBlock => text := ParseVariable();
      }
    }

    /** The keyword tests of parse_block(): the kind of block at the cursor,
        which moves past the keyword when there is one. */
    method ReadKind() returns (kind: Kind)
      requires pos <= |input|
      modifies this`pos
      ensures kind == BlockKind(input, old(pos))
      ensures pos == old(pos) + KeywordLength(kind)
      ensures kind == HelperBlock ==> pos < |input|
    {
      var found := MatchKeyword("#if");
      if found {
        return IfBlock;
      }
      found := MatchKeyword("#each");
      if found {
        return EachBlock;
      }
      found := MatchKeyword("#for");
      if found {
        return ForBlock;
      }
      found := MatchKeyword(">");
      if found {
        return PartialBlock;
      }
      if Peek() == '#' {
        return HelperBlock;
      }
      return VariableBlock;
    }

    /** parse_if_block(): the branch the condition selects, rendered by a
        parser of its own. */
    method ParseIfBlock() returns (text: string)
      requires pos <= |input|
      modifies this`pos
      ensures var r := IfAt(input, old(pos), context, helpers);
        text == r.text && pos == r.next
      decreases |input|, 2
    {
      var head := ReadIfHead();
      if head.Unclosed? {
        return head.text;
      }
      var content := ExtractUntil("{{/if}}");
      var whenTrue, whenFalse := SplitElse(content);
      var value := Resolve(context, head.name);
      if Truthy(value) {
        var sub := new Parser(whenTrue, context, helpers);
        text := sub.Parse();
      } else if whenFalse != [] {
        var sub := new Parser(whenFalse, context, helpers);
        text := sub.Parse();
      } else {
        text := "";
      }
    }

    /** The opening tag parse_if_block() reads. */
    method ReadIfHead() returns (head: Head)
      requires pos <= |input|
      modifies this`pos
      ensures head == IfHead(input, old(pos)) && pos == head.next
    {
      SkipWhitespace();
      var condition := ExtractCondition();
      var closed := Match("}}");
      if !closed {
        return Unclosed("{{#if " + condition, pos);
      }
      return Closed("", condition, pos);
    }

    /** parse_each_block(). */
    method ParseEachBlock() returns (text: string)
      requires pos <= |input|
      modifies this`pos
      ensures var r := EachAt(input, old(pos), context, helpers);
        text == r.text && pos == r.next
      decreases |input|, 2
    {
      var head := ReadEachHead();
      if head.Unclosed? {
        return head.text;
      }
      text := ParseLoop("{{/each}}", head.variable, Resolve(context, head.name));
    }

    /** The opening tag parse_each_block() reads. */
    method ReadEachHead() returns (head: Head)
      requires pos <= |input|
      modifies this`pos
      ensures head == EachHead(input, old(pos)) && pos == head.next
    {
      SkipWhitespace();
      var name := ExtractCollectionName();
      var closed := Match("}}");
      if !closed {
        return Unclosed("{{#each " + name, pos);
      }
      return Closed("this", name, pos);
    }

    /** parse_for_block(). */
    method ParseForBlock() returns (text: string)
      requires pos <= |input|
      modifies this`pos
      ensures var r := ForAt(input, old(pos), context, helpers);
        text == r.text && pos == r.next
      decreases |input|, 2
    {
      var head := ReadForHead();
      if head.Unclosed? {
        return head.text;
      }
      text := ParseLoop("{{/for}}", head.variable, Resolve(context, head.name));
    }

    /** The opening tag parse_for_block() reads. */
    method ReadForHead() returns (head: Head)
      requires pos <= |input|
      modifies this`pos
      ensures head == ForHead(input, old(pos)) && pos == head.next
    {
      SkipWhitespace();
      var variable := ExtractVariableName();
      SkipWhitespace();
      var found := Match("in");
      if !found {
        return Unclosed("{{#for " + variable, pos);
      }
      head := ReadForTail(variable);
    }

    /** The rest of the for tag, after "in". */
    method ReadForTail(variable: string) returns (head: Head)
      requires pos <= |input|
      modifies this`pos
      ensures head == ForTail(input, variable, old(pos)) && pos == head.next
    {
      SkipWhitespace();
      var name := ExtractCollectionName();
      var closed := Match("}}");
      if !closed {
        return Unclosed("{{#for " + variable + " in " + name, pos);
      }
      return Closed(variable, name, pos);
    }

    /** The tail parse_each_block and parse_for_block share: the body up
        to the end tag, rendered per item of an array collection. */
    method ParseLoop(endTag: string, variable: string, collection: Value) returns (text: string)
      requires 0 < pos <= |input|
      modifies this`pos
      ensures var r := LoopAt(input, old(pos), endTag, context, variable, collection, helpers);
        text == r.text && pos == r.next
      decreases |input|, 1
    {
      var content := ExtractUntil(endTag);
      if !collection.Arr? {
        return "";
      }
      text := RenderEach(content, variable, collection.items);
    }

    /** The loop of parse_each_block and parse_for_block: one parser per
        item, on the context with the variable bound to the item. */
    method RenderEach(content: string, variable: string, items: seq<Value>) returns (text: string)
      ensures text == Repeat(content, context, variable, items, helpers)
      decreases |content|, 7
    {
      text := "";
      var i := 0;
      while i < |items|
        invariant i <= |items|
        invariant text == Repeat(content, context, variable, items[..i], helpers)
      {
        assert items[..i + 1][..i] == items[..i];
        var sub := new Parser(content, context[variable := items[i]], helpers);
        var piece := sub.Parse();
        text := text + piece;
        i := i + 1;
      }
      assert items[..i] == items;
    }

    /** parse_variable(). */
    method ParseVariable() returns (text: string)
      requires pos <= |input|
      modifies this`pos
      ensures var r := VariableAt(input, old(pos), context);
        text == r.text && pos == r.next
    {
      var name := ExtractVariableName();
      var closed := Match("}}");
      if !closed {
        return "{{" + name;
      }
      text := ToString(Resolve(context, name));
    }

    /** parse_helper_call(), at the '#'. */
    method ParseHelperCall() returns (text: string)
      requires pos < |input|
      modifies this
      ensures var r := HelperAt(input, old(pos) + 1, context, helpers);
        text == r.text && pos == r.next && errors == old(errors) + r.errors
    {
      var hash := Advance();
      var tag := ReadHelperTag();
      if !tag.closed {
        AddError(SyntaxError, "Unclosed helper call: " + tag.name);
        return "{{#" + tag.name + " " + tag.args;
      }
      if tag.name !in helpers {
        AddError(HelperError, "Unknown helper: " + tag.name);
        return "";
      }
      var values := ParseHelperArguments(tag.args);
      var result := Invoke(helpers[tag.name], values);
      match result {
        case Ok(t) =>
          text := t;
        case Err(e) =>
          AddError(HelperError, "Helper '" + tag.name + "' error: " + e);
          text := "";
      }
    }

    /** The opening tag parse_helper_call() reads after '#'. */
    method ReadHelperTag() returns (tag: HelperTag)
      requires pos <= |input|
      modifies this`pos
      ensures tag == HelperTagAt(input, old(pos)) && pos == tag.next
    {
      var name := ExtractVariableName();
      SkipWhitespace();
      var args := ExtractHelperArgs();
      var closed := Match("}}");
      return HelperTag(name, args, closed, pos);
    }

    /** parse_partial() when no partial loader is configured. */
    method ParsePartial() returns (text: string)
      requires pos <= |input|
      modifies this
      ensures var r := PartialAt(input, old(pos));
        text == r.text && pos == r.next && errors == old(errors) + r.errors
    {
      SkipWhitespace();
      var name := ExtractVariableName();
      var closed := Match("}}");
      if !closed {
        AddError(SyntaxError, "Unclosed partial: " + name);
        return "{{>" + name;
      }
      AddError(ParseError, "No partial loader configured");
      text := "";
    }

    /** match(): consumes the pattern when the text at the cursor is it. */
    method Match(pattern: string) returns (matched: bool)
      requires pos <= |input|
      modifies this`pos
      ensures matched == At(input, old(pos), pattern)
      ensures pos == if matched then old(pos) + |pattern| else old(pos)
    {
      if pos + |pattern| > |input| {
        return false;
      }
      if input[pos..pos + |pattern|] == pattern {
        pos := pos + |pattern|;
        return true;
      }
      return false;
    }

    /** match_keyword(): a match that must end at the end, white space or
        '}', else the cursor is put back. */
    method MatchKeyword(keyword: string) returns (matched: bool)
      requires pos <= |input|
      modifies this`pos
      ensures matched == KeywordAt(input, old(pos), keyword)
      ensures pos == if matched then old(pos) + |keyword| else old(pos)
    {
      var start := pos;
      matched := Match(keyword);
      if matched && (AtEnd() || Chars.IsSpace(Peek()) || Peek() == '}') {
        return;
      }
      pos := start;
      matched := false;
    }

    /** extract_until(): the text up to the pattern, the cursor after it;
        without the pattern, the rest of the text. */
    method ExtractUntil(pattern: string) returns (content: string)
      requires pos <= |input|
      modifies this`pos
      ensures content == input[old(pos)..UntilEnd(input, old(pos), pattern)]
      ensures pos == UntilNext(input, old(pos), pattern)
    {
      var start := pos;
      match Find(input, pattern, pos) {
        case None =>
          pos := |input|;
          content := input[start..];
        case Some(e) =>
          content := input[start..e];
          pos := e + |pattern|;
      }
    }

    /** extract_condition(): the text up to the first '}' that closes no
        '{' opened in it. */
    method ExtractCondition() returns (condition: string)
      requires pos <= |input|
      modifies this`pos
      ensures pos == BraceEnd(input, old(pos), 0)
      ensures condition == input[old(pos)..pos]
    {
      var start := pos;
      var depth: nat := 0;
      while !AtEnd()
        invariant start <= pos <= |input|
        invariant BraceEnd(input, pos, depth) == BraceEnd(input, start, 0)
        decreases |input| - pos
      {
        var c := Peek();
        if c == '{' {
          depth := depth + 1;
        } else if c == '}' {
          if depth == 0 {
            break;
          }
          depth := depth - 1;
        }
        c := Advance();
      }
      condition := input[start..pos];
    }

    /** extract_helper_args(): the same scan as extract_condition(). */
    method ExtractHelperArgs() returns (args: string)
      requires pos <= |input|
      modifies this`pos
      ensures pos == BraceEnd(input, old(pos), 0)
      ensures args == input[old(pos)..pos]
    {
      args := ExtractCondition();
    }

    /** extract_variable_name(): white space skipped, then a run of
        letters, digits, '_' and '.'. */
    method ExtractVariableName() returns (name: string)
      requires pos <= |input|
      modifies this`pos
      ensures name == NameFrom(input, old(pos)) && pos == NameAt(input, old(pos))
    {
      SkipWhitespace();
      var start := pos;
      while !AtEnd() && IsNameChar(Peek())
        invariant start <= pos <= |input|
        invariant NameEnd(input, pos) == NameEnd(input, start)
        decreases |input| - pos
      {
        var c := Advance();
      }
      name := input[start..pos];
    }

    /** extract_collection_name(). */
    method ExtractCollectionName() returns (name: string)
      requires pos <= |input|
      modifies this`pos
      ensures name == NameFrom(input, old(pos)) && pos == NameAt(input, old(pos))
    {
      name := ExtractVariableName();
    }

    /** skip_whitespace(). */
    method SkipWhitespace()
      requires pos <= |input|
      modifies this`pos
      ensures pos == SkipSpace(input, old(pos))
    {
      while !AtEnd() && Chars.IsSpace(Peek())
        invariant old(pos) <= pos <= |input|
        invariant SkipSpace(input, pos) == SkipSpace(input, old(pos))
        decreases |input| - pos
      {
        var c := Advance();
      }
    }

    /** advance(): the char at the cursor, which moves past it; '\0' at
        the end. */
    method Advance() returns (c: char)
      requires pos <= |input|
      modifies this`pos
      ensures old(pos) < |input| ==> c == input[old(pos)] && pos == old(pos) + 1
      ensures old(pos) == |input| ==> c == '\0' && pos == old(pos)
    {
      if AtEnd() {
        return '\0';
      }
      c := input[pos];
      pos := pos + 1;
    }

    /** add_error(): an error at the cursor. */
    method AddError(kind: ErrorKind, message: string)
      modifies this`errors
      ensures errors == old(errors) + [TemplateError(kind, message, pos)]
    {
      errors := errors + [TemplateError(kind, message, pos)];
    }

    /** parse_helper_arguments(): the words of the text, each a quoted
        literal or a variable. */
    /** The value of one word parse_helper_arguments() reads. */
    method ReadArgument(word: string) returns (value: Value)
      requires word != []
      ensures value == Argument(context, word)
    {
      if (word[0] == '"' && word[|word| - 1] == '"') || (word[0] == '\'' && word[|word| - 1] == '\'') {
        value := Str(if |word| >= 2 then word[1..|word| - 1] else "");
      } else {
        value := Resolve(context, word);
      }
    }

    method ParseHelperArguments(text: string) returns (args: seq<Value>)
      ensures args == Arguments(context, text, 0)
    {
      args := [];
      var i := 0;
      while true
        invariant i <= |text|
        invariant args + Arguments(context, text, i) == Arguments(context, text, 0)
        decreases |text| - i
      {
        var j := SkipSpace(text, i);
        if j == |text| {
          break;
        }
        var e := WordEnd(text, j);
        var word := text[j..e];
        var value := ReadArgument(word);
        assert Arguments(context, text, i) == [value] + Arguments(context, text, e);
        assert (args + [value]) + Arguments(context, text, e) == args + Arguments(context, text, i);
        args := args + [value];
        i := e;
      }
    }
  }

  /** The split of an if block's body at its first {{else}}. */
  method SplitElse(content: string) returns (whenTrue: string, whenFalse: string)
    ensures whenTrue == WhenTrue(content) && whenFalse == WhenFalse(content)
  {
    whenTrue := content;
    whenFalse := "";
    match Find(content, "{{else}}", 0) {
      case Some(e) =>
        whenFalse := content[e + 8..];
        whenTrue := content[..e];
      case None =>
    }
  }

  /** The registered helper run on its arguments: the join helper by its
      loop, the others by their definitions. */
  method Invoke(h: Helper, args: seq<Value>) returns (r: Result<string>)
    ensures r == Call(h, args)
  {
    if h.Join? {
      var text := JoinHelper(args);
      r := Ok(text);
    } else {
      r := Call(h, args);
    }
  }

  /** TemplateEngine::render: the default helpers registered when none
      are, then the text a parser renders; the errors go to the log. */
  method RenderTemplate(template: string, context: map<string, Value>, helpers: map<string, Helper>) returns (text: string)
    ensures text == Render(template, context, Registry(helpers)).text
  {
    var parser := new Parser(template, context, Registry(helpers));
    text := parser.Parse();
  }
}
