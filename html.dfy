/** The tag-tree codec of parsers/html/html.hpp: entity escaping, the
    pretty-printing serializer and the strict recursive-descent parser. */
module Html {
  import opened Wrappers
  import opened Chars
  import opened StdString
  import opened StdMap
  import FileUtils

  /** html::Node: a tag (empty for a bare text node), its text, its
      attributes (a std::map, so visited in ascending key order) and its
      children. */
  datatype Node = Node(tag: string, text: string, attributes: map<string, string>, children: seq<Node>)

  /** A default-constructed Node. */
  const EmptyNode: Node := Node("", "", map[], [])

  // ---------------------------------------------------------------------
  // escape_html / unescape_html

  predicate Reserved(c: char) { c == '&' || c == '<' || c == '>' || c == '"' || c == '\'' }

  /** No char that opens or closes markup or ends an attribute value. */
  predicate MarkupFree(s: string) {
    forall k :: 0 <= k < |s| ==> s[k] != '<' && s[k] != '>' && s[k] != '"' && s[k] != '\''
  }

  /** The replacement escape_html writes for one char. */
  function EscapeChar(c: char): (r: string)
    ensures r != [] && MarkupFree(r)
    ensures !Reserved(c) ==> r == [c]
    ensures r[0] == c || r[0] == '&'
    ensures r[|r| - 1] == c || r[|r| - 1] == ';'
  {
    if c == '&' then "&amp;"
    else if c == '<' then "&lt;"
    else if c == '>' then "&gt;"
    else if c == '"' then "&quot;"
    else if c == '\'' then "&#39;"
    else [c]
  }

  /** escape_html: every char replaced by its EscapeChar. */
  function Escape(s: string): (r: string)
    ensures MarkupFree(r)
    ensures |r| >= |s|
    ensures s == [] <==> r == []
    ensures s != [] ==> r[0] == s[0] || r[0] == '&'
    ensures s != [] ==> r[|r| - 1] == s[|s| - 1] || r[|r| - 1] == ';'
  {
    if s == [] then [] else EscapeChar(s[0]) + Escape(s[1..])
  }

  /** Text without reserved chars is left as it is. */
  lemma {:induction false} EscapePlain(s: string)
    requires forall k :: 0 <= k < |s| ==> !Reserved(s[k])
    ensures Escape(s) == s
  {
    if s != [] {
      EscapePlain(s[1..]);
    }
  }

  method EscapeHtml(input: string) returns (result: string)
    ensures result == Escape(input)
  {
    result := "";
    var i := 0;
    while i < |input|
      invariant 0 <= i <= |input|
      invariant result == Escape(input[..i])
    {
      var c := input[i];
      var piece;
      if c == '&' {
        piece := "&amp;";
      } else if c == '<' {
        piece := "&lt;";
      } else if c == '>' {
        piece := "&gt;";
      } else if c == '"' {
        piece := "&quot;";
      } else if c == '\'' {
        piece := "&#39;";
      } else {
        piece := [c];
      }
      EscapeSnoc(input, i);
      result := result + piece;
      i := i + 1;
    }
    assert input[..i] == input;
  }

  lemma EscapeSnoc(s: string, i: nat)
    requires i < |s|
    ensures Escape(s[..i + 1]) == Escape(s[..i]) + EscapeChar(s[i])
  {
    assert s[..i + 1] == s[..i] + [s[i]];
    EscapeAppend(s[..i], [s[i]]);
  }

  lemma {:induction false} EscapeAppend(a: string, b: string)
    ensures Escape(a + b) == Escape(a) + Escape(b)
  {
    if a != [] {
      var ab := a + b;
      assert ab[0] == a[0] && ab[1..] == a[1..] + b;
      EscapeAppend(a[1..], b);
      ConcatAssoc(EscapeChar(a[0]), Escape(a[1..]), Escape(b));
    } else {
      assert a + b == b;
    }
  }

  /** The decoding of the char or entity at the start of t, and its width. */
  function Entity(t: string): (r: (string, nat))
    requires t != []
    ensures 1 <= r.1 <= |t|
  {
    if HasPrefix(t, "&amp;") then ("&", 5)
    else if HasPrefix(t, "&lt;") then ("<", 4)
    else if HasPrefix(t, "&gt;") then (">", 4)
    else if HasPrefix(t, "&quot;") then ("\"", 6)
    else if HasPrefix(t, "&#39;") then ("'", 5)
    else ([t[0]], 1)
  }

  /** unescape_html: the five entities escape_html writes are decoded, tried
      in the order amp, lt, gt, quot, #39; any other char, including an '&'
      that starts none of them, is copied. */
  function Unescape(s: string): (r: string)
    ensures |r| <= |s|
    decreases |s|
  {
    if s == [] then []
    else
      var e := Entity(s);
      e.0 + Unescape(s[e.1..])
  }

  method UnescapeHtml(input: string) returns (result: string)
    ensures result == Unescape(input)
  {
    result := "";
    var i := 0;
    assert input[0..] == input;
    assert "" + Unescape(input[0..]) == Unescape(input);
    while i < |input|
      invariant 0 <= i <= |input|
      invariant result + Unescape(input[i..]) == Unescape(input)
    {
      var piece, width := DecodeAt(input, i);
      UnescapeStep(input, i, result, piece, width);
      result := result + piece;
      i := i + width;
    }
  }

  lemma UnescapeStep(input: string, i: nat, result: string, piece: string, width: nat)
    requires i < |input| && (piece, width) == Entity(input[i..])
    requires result + Unescape(input[i..]) == Unescape(input)
    ensures i + width <= |input|
    ensures (result + piece) + Unescape(input[i + width..]) == Unescape(input)
  {
    UnescapeAt(input, i, piece, width);
    ConcatAssoc(result, piece, Unescape(input[i + width..]));
  }

  lemma ConcatAssoc(a: string, b: string, c: string)
    ensures (a + b) + c == a + (b + c)
  {
  }

  /** One step of unescape_html at index i: the text to append and how far
      to move. */
  method DecodeAt(input: string, i: nat) returns (piece: string, width: nat)
    requires i < |input|
    ensures (piece, width) == Entity(input[i..])
  {
    if input[i] == '&' {
      EntityBySubstr(input, i);
      if Substr(input, i, 5) == "&amp;" {
        piece, width := "&", 5;
      } else if Substr(input, i, 4) == "&lt;" {
        piece, width := "<", 4;
      } else if Substr(input, i, 4) == "&gt;" {
        piece, width := ">", 4;
      } else if Substr(input, i, 6) == "&quot;" {
        piece, width := "\"", 6;
      } else if Substr(input, i, 5) == "&#39;" {
        piece, width := "'", 5;
      } else {
        piece, width := [input[i]], 1;
      }
    } else {
      EntityPlain(input[i..]);
      piece, width := [input[i]], 1;
    }
  }

  /** The entity tests of unescape_html, written with substr, are the ones
      Entity makes. */
  lemma EntityBySubstr(s: string, i: nat)
    requires i < |s|
    ensures Entity(s[i..]) ==
      if Substr(s, i, 5) == "&amp;" then ("&", 5)
      else if Substr(s, i, 4) == "&lt;" then ("<", 4)
      else if Substr(s, i, 4) == "&gt;" then (">", 4)
      else if Substr(s, i, 6) == "&quot;" then ("\"", 6)
      else if Substr(s, i, 5) == "&#39;" then ("'", 5)
      else ([s[i]], 1)
  {
    SubstrIsPrefix(s, i, "&amp;");
    SubstrIsPrefix(s, i, "&lt;");
    SubstrIsPrefix(s, i, "&gt;");
    SubstrIsPrefix(s, i, "&quot;");
    SubstrIsPrefix(s, i, "&#39;");
  }

  lemma UnescapeAt(s: string, i: nat, piece: string, width: nat)
    requires i < |s| && (piece, width) == Entity(s[i..])
    ensures i + width <= |s|
    ensures Unescape(s[i..]) == piece + Unescape(s[i + width..])
  {
    assert s[i..][width..] == s[i + width..];
  }

  /** A char other than '&' stands for itself. */
  lemma EntityPlain(t: string)
    requires t != [] && t[0] != '&'
    ensures Entity(t) == ([t[0]], 1)
  {
    if HasPrefix(t, "&amp;") { PrefixChar(t, "&amp;", 0); }
    if HasPrefix(t, "&lt;") { PrefixChar(t, "&lt;", 0); }
    if HasPrefix(t, "&gt;") { PrefixChar(t, "&gt;", 0); }
    if HasPrefix(t, "&quot;") { PrefixChar(t, "&quot;", 0); }
    if HasPrefix(t, "&#39;") { PrefixChar(t, "&#39;", 0); }
  }

  /** Text without '&' is left as it is. */
  lemma {:induction false} UnescapePlain(s: string)
    requires forall k :: 0 <= k < |s| ==> s[k] != '&'
    ensures Unescape(s) == s
  {
    if s != [] {
      EntityPlain(s);
      UnescapePlain(s[1..]);
      assert [s[0]] + s[1..] == s;
    }
  }

  /** The replacement of c is read back, as one entity, as c. */
  lemma EntityOfEscape(c: char, rest: string)
    ensures Entity(EscapeChar(c) + rest) == ([c], |EscapeChar(c)|)
  {
    var e := EscapeChar(c);
    var s := e + rest;
    assert s[..|e|] == e;
    if c != '&' {
      if HasPrefix(s, "&amp;") { PrefixChar(s, "&amp;", 1); }
    }
    if c != '&' && c != '<' {
      if HasPrefix(s, "&lt;") { PrefixChar(s, "&lt;", 1); }
    }
    if c != '&' && c != '<' && c != '>' {
      if HasPrefix(s, "&gt;") { PrefixChar(s, "&gt;", 1); }
    }
    if c != '&' && c != '<' && c != '>' && c != '"' {
      if HasPrefix(s, "&quot;") { PrefixChar(s, "&quot;", 1); }
    }
    if !Reserved(c) {
      EntityPlain(s);
    }
  }

  lemma UnescapeEscapeChar(c: char, rest: string)
    ensures Unescape(EscapeChar(c) + rest) == [c] + Unescape(rest)
  {
    var e := EscapeChar(c);
    var s := e + rest;
    EntityOfEscape(c, rest);
    assert s[|e|..] == rest;
  }

  /** unescape_html inverts escape_html on every string. */
  lemma {:induction false} UnescapeEscape(s: string)
    ensures Unescape(Escape(s)) == s
  {
    if s != [] {
      UnescapeEscapeChar(s[0], Escape(s[1..]));
      UnescapeEscape(s[1..]);
    }
  }

  // ---------------------------------------------------------------------
  // Serializer::serialize

  const SelfClosingTags: set<string> := {"img", "hr", "br"}
  const InlineTags: set<string> := {"strong", "em", "a", "code", "span"}

  /** indent_level * 2 spaces. */
  function Indent(level: nat): (r: string)
    ensures |r| == 2 * level
    ensures forall k :: 0 <= k < |r| ==> r[k] == ' '
  {
    if level == 0 then "" else Indent(level - 1) + "  "
  }

  /** ` key="escaped value"`. */
  function Attribute(key: string, value: string): string {
    " " + key + "=\"" + Escape(value) + "\""
  }

  /** The attributes named by keys, in that order. */
  function AttributesIn(m: map<string, string>, keys: seq<string>): string
    requires forall i :: 0 <= i < |keys| ==> keys[i] in m
  {
    if keys == [] then ""
    else AttributesIn(m, keys[..|keys| - 1]) + Attribute(keys[|keys| - 1], m[keys[|keys| - 1]])
  }

  /** The attribute names in the map's ascending key order. */
  function KeysInOrder(m: map<string, string>): (keys: seq<string>)
    ensures forall i :: 0 <= i < |keys| ==> keys[i] in m
  {
    SortedKeys(m.Keys)
  }

  /** All attributes, in the map's ascending key order. */
  function Attributes(m: map<string, string>): string {
    AttributesIn(m, KeysInOrder(m))
  }

  /** A code element whose class starts with "language-" keeps its text
      unescaped. */
  predicate KeepsRawText(n: Node) {
    n.tag == "code" && "class" in n.attributes && n.attributes["class"] != []
    && FileUtils.StartsWith(n.attributes["class"], "language-")
  }

  function TextPart(n: Node): string {
    if n.text == [] then "" else if KeepsRawText(n) then n.text else Escape(n.text)
  }

  function OpenTag(n: Node): string {
    "<" + n.tag + Attributes(n.attributes)
  }

  function CloseTag(n: Node, level: nat): string {
    (if n.children != [] && n.tag !in InlineTags then "\n" + Indent(level) else "") + "</" + n.tag + ">"
  }

  /** serialize(node, indent_level). */
  function Serialize(n: Node, level: nat): string
    decreases n, 2
  {
    if n.tag != [] then Indent(level) + Element(n, level)
    else if n.text != [] then Indent(level) + Escape(n.text)
    else ""
  }

  /** An element from its '<' on. */
  function Element(n: Node, level: nat): string
    decreases n, 1
  {
    if n.tag in SelfClosingTags then OpenTag(n) + " />"
    else OpenTag(n) + ">" + TextPart(n) + ChildrenText(n, 0, level) + CloseTag(n, level)
  }

  /** The children from index i on: inline tags write them at indent 0 with
      no separator, all other tags one level deeper, each on a new line. */
  function ChildrenText(n: Node, i: nat, level: nat): string
    requires i <= |n.children|
    decreases n, 0, |n.children| - i
  {
    if i == |n.children| then ""
    else ChildSeparator(n) + Serialize(n.children[i], ChildLevel(n, level)) + ChildrenText(n, i + 1, level)
  }

  /** What precedes each child: nothing inside an inline tag, else a line
      break. */
  function ChildSeparator(n: Node): string {
    if n.tag in InlineTags then "" else "\n"
  }

  /** The indent level of the children: 0 inside an inline tag, else one
      deeper. */
  function ChildLevel(n: Node, level: nat): nat {
    if n.tag in InlineTags then 0 else level + 1
  }

  method SerializeNode(n: Node, level: nat) returns (out: string)
    ensures out == Serialize(n, level)
    decreases n, 2
  {
    out := "";
    var indent := Indent(level);
    if n.tag != [] {
      var attributes := WriteAttributes(n.attributes);
      var open := "<" + n.tag + attributes;
      if n.tag in SelfClosingTags {
        var element := open + " />";
        out := indent + element;
        return;
      }
      var text := "";
      if n.text != [] {
        if KeepsRawText(n) {
          text := n.text;
        } else {
          text := EscapeHtml(n.text);
        }
      }
      var children := WriteChildren(n, level);
      var close := "";
      if n.children != [] && n.tag !in InlineTags {
        close := "\n" + indent;
      }
      close := close + "</" + n.tag + ">";
      var element := open + ">" + text + children + close;
      out := indent + element;
    } else if n.text != [] {
      var escaped := EscapeHtml(n.text);
      out := indent + escaped;
    }
  }

  /** The attribute loop of serialize. */
  method WriteAttributes(m: map<string, string>) returns (out: string)
    ensures out == Attributes(m)
  {
    out := "";
    var keys := KeysInOrder(m);
    var i := 0;
    assert keys[..0] == [];
    while i < |keys|
      invariant 0 <= i <= |keys|
      invariant out == AttributesIn(m, keys[..i])
    {
      var value := EscapeHtml(m[keys[i]]);
      AttributesSnoc(m, keys, i);
      var attribute := " " + keys[i] + "=\"" + value + "\"";
      out := out + attribute;
      i := i + 1;
    }
    assert keys[..i] == keys;
  }

  lemma AttributesSnoc(m: map<string, string>, keys: seq<string>, i: nat)
    requires i < |keys| && forall j :: 0 <= j < |keys| ==> keys[j] in m
    ensures AttributesIn(m, keys[..i + 1]) == AttributesIn(m, keys[..i]) + Attribute(keys[i], m[keys[i]])
  {
    assert keys[..i + 1][..i] == keys[..i];
  }

  /** The child loop of serialize. */
  method WriteChildren(n: Node, level: nat) returns (out: string)
    ensures out == ChildrenText(n, 0, level)
    decreases n, 0
  {
    out := "";
    var isInline := n.tag in InlineTags;
    var j := 0;
    assert "" + ChildrenText(n, 0, level) == ChildrenText(n, 0, level);
    while j < |n.children|
      invariant 0 <= j <= |n.children|
      invariant out + ChildrenText(n, j, level) == ChildrenText(n, 0, level)
    {
      var separator := if isInline then "" else "\n";
      var child := SerializeNode(n.children[j], if isInline then 0 else level + 1);
      ChildrenStep(n, j, level, out);
      out := out + (separator + child);
      j := j + 1;
    }
  }

  lemma ChildrenStep(n: Node, j: nat, level: nat, out: string)
    requires j < |n.children|
    requires out + ChildrenText(n, j, level) == ChildrenText(n, 0, level)
    ensures (out + (ChildSeparator(n) + Serialize(n.children[j], ChildLevel(n, level))))
            + ChildrenText(n, j + 1, level) == ChildrenText(n, 0, level)
  {
    var x := ChildSeparator(n) + Serialize(n.children[j], ChildLevel(n, level));
    var rest := ChildrenText(n, j + 1, level);
    assert ChildrenText(n, j, level) == x + rest;
    assert out + (x + rest) == (out + x) + rest;
  }

  /** img, hr and br close themselves: their text and children are never
      written. */
  lemma SelfClosingIgnoresBody(n: Node, level: nat)
    requires n.tag in SelfClosingTags
    ensures Serialize(n, level) == Serialize(n.(text := "", children := []), level)
    ensures Serialize(n, level) == Indent(level) + "<" + n.tag + Attributes(n.attributes) + " />"
  {
    var m := n.(text := "", children := []);
    SelfClosingElement(n, level);
    SelfClosingElement(m, level);
    assert OpenTag(m) == OpenTag(n);
    OpenTagLayout(Indent(level), n.tag, Attributes(n.attributes));
  }

  lemma SelfClosingElement(n: Node, level: nat)
    requires n.tag in SelfClosingTags
    ensures Serialize(n, level) == Indent(level) + (OpenTag(n) + " />")
  {
    assert n.tag != [];
  }

  lemma OpenTagLayout(indent: string, t: string, a: string)
    ensures indent + (("<" + t + a) + " />") == indent + "<" + t + a + " />"
  {
  }

  /** Text is escaped, so it carries no markup and reads back unchanged,
      unless the node is a code element with a language- class. */
  lemma TextPartEscaped(n: Node)
    requires !KeepsRawText(n)
    ensures MarkupFree(TextPart(n)) && Unescape(TextPart(n)) == n.text
  {
    UnescapeEscape(n.text);
  }

  lemma TextPartRaw(n: Node)
    requires KeepsRawText(n)
    ensures TextPart(n) == n.text
  {
  }

  /** The children of an inline tag are laid out the same at every indent
      level. */
  lemma {:induction false} InlineChildrenAtZero(n: Node, i: nat, level: nat)
    requires n.tag in InlineTags && i <= |n.children|
    ensures ChildrenText(n, i, level) == ChildrenText(n, i, 0)
    decreases |n.children| - i
  {
    if i < |n.children| {
      InlineChildrenAtZero(n, i + 1, level);
    }
  }

  /** A block element with children closes on a line of its own at its own
      indent. */
  lemma BlockClosesOnOwnLine(n: Node, level: nat)
    requires n.tag != [] && n.tag !in SelfClosingTags && n.tag !in InlineTags && n.children != []
    ensures FileUtils.EndsWith(Serialize(n, level), "\n" + Indent(level) + "</" + n.tag + ">")
  {
    var close := CloseTag(n, level);
    var x := OpenTag(n) + ">" + TextPart(n) + ChildrenText(n, 0, level);
    assert Element(n, level) == x + close;
    assert Serialize(n, level) == (Indent(level) + x) + close;
    EndsWithAppend(Indent(level) + x, close);
  }

  lemma EndsWithAppend(a: string, b: string)
    ensures FileUtils.EndsWith(a + b, b)
  {
    assert (a + b)[|a + b| - |b|..] == b;
  }

  /** A node without tag is its escaped text at the indent, or nothing. */
  lemma BareText(n: Node, level: nat)
    requires n.tag == []
    ensures n.text == [] ==> Serialize(n, level) == ""
    ensures n.text != [] ==> Serialize(n, level) == Indent(level) + Escape(n.text) && MarkupFree(Serialize(n, level)[2 * level..])
  {
    if n.text != [] {
      assert Serialize(n, level)[2 * level..] == Escape(n.text);
    }
  }

  // ---------------------------------------------------------------------
  // Deserializer::deserialize / parse_node

  /** The chars std::isspace accepts. */
  const SpaceChars: set<char> := {' ', '\t', '\n', 11 as char, 12 as char, '\r'}
  /** A tag name, and an unquoted attribute value, end at one of these. */
  const TagStops: set<char> := {' ', '>', '/'}
  /** An attribute name ends at one of these. */
  const KeyStops: set<char> := {'=', '>', '/'} + SpaceChars

  lemma SpaceCharsAreSpace(c: char)
    ensures c in SpaceChars <==> IsSpace(c)
  {
  }

  predicate NoUpper(s: string) { forall k :: 0 <= k < |s| ==> !IsUpper(s[k]) }

  /** What the parser builds: lower-case tag and attribute names, no empty
      attribute name, and only children that carry a tag. */
  predicate ParsedShape(n: Node)
    decreases n
  {
    && NoUpper(n.tag)
    && (forall k :: k in n.attributes ==> k != [] && NoUpper(k))
    && forall i :: 0 <= i < |n.children| ==> n.children[i].tag != [] && ParsedShape(n.children[i])
  }

  /** Parse of one node: the node and the cursor after it. */
  datatype Parsed = Parsed(node: Node, pos: nat)

  /** After white space, the input at pos opens an element. */
  predicate StartsElement(html: string, pos: nat)
    requires pos <= |html|
  {
    var p := SkipSpace(html, pos);
    p < |html| && html[p] == '<'
  }

  /** parse_node(html, pos): either an error message (the exception) or the
      node and the cursor after it.  Input at pos that does not open an
      element, and a closing tag, give the empty node. */
  function ParseNodeAt(html: string, pos: nat): (r: Result<Parsed>)
    requires pos <= |html|
    ensures r.Ok? ==> pos <= r.value.pos <= |html| && ParsedShape(r.value.node)
    ensures r.Ok? && StartsElement(html, pos) ==> pos < r.value.pos
    ensures r.Ok? && r.value.node.tag != [] ==> StartsElement(html, pos)
    decreases |html| - pos, 0
  {
    var p := SkipSpace(html, pos);
    if p >= |html| || html[p] != '<' then Ok(Parsed(EmptyNode, p))
    else if p + 1 >= |html| then Err("Invalid HTML: Unexpected end of input")
    else if html[p + 1] == '/' then Ok(Parsed(EmptyNode, p + 1))
    else
      var e := ScanUntil(html, p + 1, TagStops);
      var tag := Lower(html[p + 1..e]);
      if tag == [] then Err("Invalid HTML: Empty tag name")
      else ParseAttributes(html, SkipSpace(html, e), tag, map[])
  }

  /** An attribute value starting at v: a quoted value runs to the next '"'
      (which is skipped when present), an unquoted one to a TagStops char. */
  function AttributeValue(html: string, v: nat): (r: (string, nat))
    requires v <= |html|
    ensures v <= r.1 <= |html|
  {
    if v < |html| && html[v] == '"' then
      var e := ScanUntil(html, v + 1, {'"'});
      (html[v + 1..e], if e < |html| then e + 1 else e)
    else
      var e := ScanUntil(html, v, TagStops);
      (html[v..e], e)
  }

  /** One attribute starting at pos: its name, its value ("" when there is no
      '='), and the cursor after it. */
  function AttributeAt(html: string, pos: nat): (r: (string, string, nat))
    requires pos < |html| && (html[pos] == '=' || html[pos] !in KeyStops)
    ensures pos < r.2 <= |html|
    ensures NoUpper(r.0)
  {
    var ke := ScanUntil(html, pos, KeyStops);
    var key := Lower(html[pos..ke]);
    var q := SkipSpace(html, ke);
    if q < |html| && html[q] == '=' then
      var va := AttributeValue(html, SkipSpace(html, q + 1));
      (key, va.0, va.1)
    else
      assert ke > pos;
      (key, "", q)
  }

  /** The attribute loop from pos (just past white space), then the end of
      the start tag. */
  function ParseAttributes(html: string, pos: nat, tag: string, attrs: map<string, string>): (r: Result<Parsed>)
    requires pos <= |html| && (pos < |html| ==> !IsSpace(html[pos]))
    requires tag != [] && ParsedShape(Node(tag, "", attrs, []))
    ensures r.Ok? ==> pos < r.value.pos <= |html| && ParsedShape(r.value.node) && r.value.node.tag == tag
    decreases |html| - pos, 0
  {
    if pos < |html| && html[pos] != '>' && html[pos] != '/' then
      SpaceCharsAreSpace(html[pos]);
      var a := AttributeAt(html, pos);
      var attrs' := if a.0 != [] then attrs[a.0 := a.1] else attrs;
      ParseAttributes(html, SkipSpace(html, a.2), tag, attrs')
    else if pos < |html| && html[pos] == '/' then
      Ok(Parsed(Node(tag, "", attrs, []), if pos + 1 < |html| && html[pos + 1] == '>' then pos + 2 else pos + 1))
    else if pos < |html| then
      ParseBody(html, pos + 1, Node(tag, "", attrs, []), "")
    else
      Err("Invalid HTML: Expected '>' after tag")
  }

  /** The body loop at pos, with the element built so far and the text read
      since its last child. */
  function ParseBody(html: string, pos: nat, node: Node, text: string): (r: Result<Parsed>)
    requires pos <= |html|
    requires node.tag != [] && ParsedShape(node)
    ensures r.Ok? ==> pos < r.value.pos <= |html| && ParsedShape(r.value.node) && r.value.node.tag == node.tag
    decreases |html| - pos, 1
  {
    if pos < |html| && html[pos] == '<' && !(pos + 1 < |html| && html[pos + 1] == '/') then
      var before := WithText(node, text);
      match ParseNodeAt(html, pos)
      case Err(e) => Err(e)
      case Ok(child) =>
        var after := if child.node.tag != [] then before.(children := before.children + [child.node]) else before;
        ParseBody(html, child.pos, after, "")
    else if pos < |html| && html[pos] != '<' then
      ParseBody(html, pos + 1, node, text + [html[pos]])
    else
      CloseElement(html, pos, node, text)
  }

  /** The node with the text read since its last child, unescaped, when
      there is any. */
  function WithText(node: Node, text: string): (r: Node)
    ensures r.tag == node.tag && r.attributes == node.attributes && r.children == node.children
  {
    if text != [] then node.(text := Unescape(text)) else node
  }

  /** The node with its trailing text, trimmed and unescaped, when there is
      any. */
  function Closed(node: Node, text: string): (r: Node)
    ensures r.tag == node.tag && r.attributes == node.attributes && r.children == node.children
  {
    if text != [] then node.(text := Unescape(FileUtils.Trim(text))) else node
  }

  /** The end of the body: the text after the last child, trimmed and
      unescaped, replaces node.text; then the closing tag must follow and
      name the same tag. */
  function CloseElement(html: string, pos: nat, node: Node, text: string): (r: Result<Parsed>)
    requires pos <= |html|
    requires node.tag != [] && ParsedShape(node)
    ensures r.Ok? ==> pos < r.value.pos <= |html| && ParsedShape(r.value.node) && r.value.node.tag == node.tag
  {
    var closed := Closed(node, text);
    if pos + 1 < |html| && html[pos] == '<' && html[pos + 1] == '/' then
      var e := ScanUntil(html, pos + 2, {'>'});
      if Lower(html[pos + 2..e]) != node.tag then Err("Invalid HTML: Mismatched closing tag")
      else if e < |html| then Ok(Parsed(closed, e + 1))
      else Err("Invalid HTML: Unclosed tag")
    else
      Err("Invalid HTML: Missing closing tag for " + node.tag)
  }

  /** deserialize(html): the first node of the input; trailing input is not
      looked at. */
  function Deserialized(html: string): (r: Result<Node>)
    ensures r.Ok? ==> r.value.tag != [] && ParsedShape(r.value)
  {
    match ParseNodeAt(html, 0)
    case Err(e) => Err(e)
    case Ok(p) => if p.node.tag == [] then Err("Invalid HTML: No root element found") else Ok(p.node)
  }

  method SkipWhitespace(html: string, pos: nat) returns (p: nat)
    requires pos <= |html|
    ensures p == SkipSpace(html, pos)
  {
    p := pos;
    while p < |html| && IsSpace(html[p])
      invariant pos <= p <= |html|
      invariant SkipSpace(html, p) == SkipSpace(html, pos)
    {
      p := p + 1;
    }
  }

  /** The char loops of parse_node that stop at one of a few chars. */
  method ScanRun(html: string, pos: nat, stops: set<char>) returns (p: nat)
    requires pos <= |html|
    ensures p == ScanUntil(html, pos, stops)
  {
    p := pos;
    while p < |html| && html[p] !in stops
      invariant pos <= p <= |html|
      invariant ScanUntil(html, p, stops) == ScanUntil(html, pos, stops)
    {
      p := p + 1;
    }
  }

  method ParseNode(html: string, pos: nat) returns (r: Result<Parsed>)
    requires pos <= |html|
    ensures r == ParseNodeAt(html, pos)
    decreases |html| - pos, 0
  {
    var p := SkipWhitespace(html, pos);
    if p >= |html| || html[p] != '<' {
      return Ok(Parsed(EmptyNode, p));
    }
    p := p + 1;
    if p >= |html| {
      return Err("Invalid HTML: Unexpected end of input");
    }
    if html[p] == '/' {
      return Ok(Parsed(EmptyNode, p));
    }
    var e := ScanRun(html, p, TagStops);
    var tag := Lower(html[p..e]);
    if tag == [] {
      return Err("Invalid HTML: Empty tag name");
    }
    p := SkipWhitespace(html, e);
    var attrs;
    attrs, p := ReadAttributes(html, p, tag);
    r := FinishStartTag(html, p, tag, attrs);
  }

  /** The end of a start tag: "/>" (or a lone '/') ends the element, '>'
      starts its body. */
  method FinishStartTag(html: string, pos: nat, tag: string, attrs: map<string, string>) returns (r: Result<Parsed>)
    requires pos <= |html| && (pos < |html| ==> html[pos] == '>' || html[pos] == '/')
    requires tag != [] && ParsedShape(Node(tag, "", attrs, []))
    ensures r == ParseAttributes(html, pos, tag, attrs)
    decreases |html| - pos, 2
  {
    var p := pos;
    if p < |html| && html[p] == '/' {
      p := p + 1;
      if p < |html| && html[p] == '>' {
        p := p + 1;
      }
      return Ok(Parsed(Node(tag, "", attrs, []), p));
    }
    if p < |html| && html[p] == '>' {
      p := p + 1;
    } else {
      return Err("Invalid HTML: Expected '>' after tag");
    }
    r := ReadBody(html, p, Node(tag, "", attrs, []));
  }

  /** The attribute loop of parse_node: it stops at the end of the input or
      at '>' or '/'. */
  method ReadAttributes(html: string, pos: nat, tag: string) returns (attrs: map<string, string>, p: nat)
    requires pos <= |html| && (pos < |html| ==> !IsSpace(html[pos])) && tag != [] && NoUpper(tag)
    ensures pos <= p <= |html| && (p < |html| ==> html[p] == '>' || html[p] == '/')
    ensures ParsedShape(Node(tag, "", attrs, []))
    ensures ParseAttributes(html, p, tag, attrs) == ParseAttributes(html, pos, tag, map[])
  {
    attrs := map[];
    p := pos;
    while p < |html| && html[p] != '>' && html[p] != '/'
      invariant pos <= p <= |html| && (p < |html| ==> !IsSpace(html[p]))
      invariant ParsedShape(Node(tag, "", attrs, []))
      invariant ParseAttributes(html, p, tag, attrs) == ParseAttributes(html, pos, tag, map[])
      decreases |html| - p
    {
      SpaceCharsAreSpace(html[p]);
      var key, value, q := ReadAttribute(html, p);
      if key != [] {
        attrs := attrs[key := value];
      }
      p := SkipWhitespace(html, q);
    }
  }

  /** One attribute: the name loop, then an optional '=' and value. */
  method ReadAttribute(html: string, pos: nat) returns (key: string, value: string, q: nat)
    requires pos < |html| && (html[pos] == '=' || html[pos] !in KeyStops)
    ensures (key, value, q) == AttributeAt(html, pos)
  {
    var ke := ScanRun(html, pos, KeyStops);
    key := Lower(html[pos..ke]);
    value := "";
    q := SkipWhitespace(html, ke);
    if q < |html| && html[q] == '=' {
      var v := SkipWhitespace(html, q + 1);
      value, q := ReadValue(html, v);
    }
  }

  /** A quoted or unquoted attribute value. */
  method ReadValue(html: string, v: nat) returns (value: string, q: nat)
    requires v <= |html|
    ensures (value, q) == AttributeValue(html, v)
  {
    if v < |html| && html[v] == '"' {
      var ve := ScanRun(html, v + 1, {'"'});
      value := html[v + 1..ve];
      q := if ve < |html| then ve + 1 else ve;
    } else {
      var ve := ScanRun(html, v, TagStops);
      value := html[v..ve];
      q := ve;
    }
  }

  /** The body loop of parse_node, from just after the start tag, and the
      closing tag after it. */
  method ReadBody(html: string, pos: nat, start: Node) returns (r: Result<Parsed>)
    requires pos <= |html| && start.tag != [] && ParsedShape(start)
    ensures r == ParseBody(html, pos, start, "")
    decreases |html| - pos, 1
  {
    var p := pos;
    var node := start;
    var text := "";
    while p < |html|
      invariant pos <= p <= |html| && node.tag == start.tag && ParsedShape(node)
      invariant ParseBody(html, p, node, text) == ParseBody(html, pos, start, "")
      decreases |html| - p
    {
      if html[p] == '<' {
        if p + 1 < |html| && html[p + 1] == '/' {
          break;
        }
        if text != [] {
          var unescaped := UnescapeHtml(text);
          node := node.(text := unescaped);
          text := "";
        }
        var child := ParseNode(html, p);
        if child.Err? {
          return Err(child.error);
        }
        if child.value.node.tag != [] {
          node := node.(children := node.children + [child.value.node]);
        }
        p := child.value.pos;
      } else {
        text := text + [html[p]];
        p := p + 1;
      }
    }
    r := ReadClosingTag(html, p, node, text);
  }

  /** The trailing text and the closing tag. */
  method ReadClosingTag(html: string, pos: nat, node: Node, text: string) returns (r: Result<Parsed>)
    requires pos <= |html| && node.tag != [] && ParsedShape(node)
    ensures r == CloseElement(html, pos, node, text)
  {
    var closed := node;
    if text != [] {
      var unescaped := UnescapeHtml(FileUtils.Trim(text));
      closed := node.(text := unescaped);
    }
    if pos < |html| && html[pos] == '<' && pos + 1 < |html| && html[pos + 1] == '/' {
      var p := pos + 2;
      var close := ScanRun(html, p, {'>'});
      var endTag := Lower(html[p..close]);
      if endTag != node.tag {
        return Err("Invalid HTML: Mismatched closing tag");
      }
      if close < |html| {
        return Ok(Parsed(closed, close + 1));
      } else {
        return Err("Invalid HTML: Unclosed tag");
      }
    } else {
      return Err("Invalid HTML: Missing closing tag for " + node.tag);
    }
  }

  method Deserialize(html: string) returns (r: Result<Node>)
    ensures r == Deserialized(html)
  {
    var p := ParseNode(html, 0);
    if p.Err? {
      return Err(p.error);
    }
    if p.value.node.tag == [] {
      return Err("Invalid HTML: No root element found");
    }
    return Ok(p.value.node);
  }

  // ---------------------------------------------------------------------
  // deserialize reads back what serialize writes

  /** A tag name the parser reads back as written. */
  predicate ReadableTag(t: string) {
    t != [] && NoUpper(t) && forall k :: 0 <= k < |t| ==> t[k] !in TagStops
  }

  /** Text the parser's trim leaves alone. */
  predicate Trimmed(s: string) {
    s != [] ==> s[0] !in FileUtils.TrimSpace && s[|s| - 1] !in FileUtils.TrimSpace
  }

  /** A tree with readable tags, no attributes, no self-closing tags, and
      text only in leaves. */
  predicate Simple(n: Node)
    decreases n
  {
    && ReadableTag(n.tag) && n.tag !in SelfClosingTags && n.attributes == map[]
    && if n.children == [] then Trimmed(n.text)
       else n.text == [] && forall i :: 0 <= i < |n.children| ==> Simple(n.children[i])
  }

  lemma LowerNoUpper(s: string)
    requires NoUpper(s)
    ensures Lower(s) == s
  {
    assert forall k :: 0 <= k < |s| ==> Lower(s)[k] == s[k];
  }

  lemma NoAttributes()
    ensures Attributes(map[]) == ""
  {
    assert KeysInOrder(map[]) == [];
  }

  // One step of parse_node each.

  lemma NodeStartStep(html: string, p: nat, e: nat, t: string)
    requires p + 1 < |html| && html[p] == '<' && html[p + 1] != '/'
    requires ScanUntil(html, p + 1, TagStops) == e && Lower(html[p + 1..e]) == t && t != []
    requires e <= |html| && SkipSpace(html, e) == e
    ensures ParseNodeAt(html, p) == ParseAttributes(html, e, t, map[])
  {
    NoSpaceAt(html, p);
    assert SkipSpace(html, p) == p;
  }

  /** Skipping whitespace stops at once on a char that is not one. */
  lemma NoSpaceAt(html: string, p: nat)
    requires p < |html| && !IsSpace(html[p])
    ensures SkipSpace(html, p) == p
  {
  }

  lemma StartEndStep(html: string, pos: nat, tag: string, attrs: map<string, string>)
    requires pos < |html| && html[pos] == '>'
    requires tag != [] && ParsedShape(Node(tag, "", attrs, []))
    ensures ParseAttributes(html, pos, tag, attrs) == ParseBody(html, pos + 1, Node(tag, "", attrs, []), "")
  {
  }

  lemma BodyCharStep(html: string, pos: nat, node: Node, text: string)
    requires node.tag != [] && ParsedShape(node)
    requires pos < |html| && html[pos] != '<'
    ensures ParseBody(html, pos, node, text) == ParseBody(html, pos + 1, node, text + [html[pos]])
  {
  }

  lemma BodyChildStep(html: string, pos: nat, node: Node, text: string, child: Parsed)
    requires node.tag != [] && ParsedShape(node)
    requires pos + 1 < |html| && html[pos] == '<' && html[pos + 1] != '/'
    requires ParseNodeAt(html, pos) == Ok(child) && child.node.tag != []
    ensures ParseBody(html, pos, node, text)
         == ParseBody(html, child.pos, WithText(node, text).(children := node.children + [child.node]), "")
  {
  }

  lemma BodyCloseStep(html: string, pos: nat, node: Node, text: string)
    requires node.tag != [] && ParsedShape(node)
    requires pos + 1 < |html| && html[pos] == '<' && html[pos + 1] == '/'
    ensures ParseBody(html, pos, node, text) == CloseElement(html, pos, node, text)
  {
  }

  lemma CloseStep(html: string, pos: nat, node: Node, text: string, e: nat)
    requires node.tag != [] && ParsedShape(node)
    requires pos + 1 < |html| && html[pos] == '<' && html[pos + 1] == '/'
    requires ScanUntil(html, pos + 2, {'>'}) == e && e < |html| && Lower(html[pos + 2..e]) == node.tag
    ensures CloseElement(html, pos, node, text) == Ok(Parsed(Closed(node, text), e + 1))
  {
  }

  /** The input holds t at p, and a char of stops right after it. */
  lemma ScanWord(html: string, p: nat, t: string, stops: set<char>)
    requires At(html, p, t) && p + |t| < |html| && html[p + |t|] in stops
    requires forall k :: 0 <= k < |t| ==> t[k] !in stops
    ensures ScanUntil(html, p, stops) == p + |t| && html[p..p + |t|] == t
  {
    forall k | p <= k < p + |t| ensures html[k] !in stops {
      AtChar(html, p, t, k - p);
    }
  }

  /** The chars of "<t>" at p, as parse_node looks at them; e is the
      position of the '>'. */
  lemma StartTagChars(html: string, p: nat, e: nat, t: string)
    requires ReadableTag(t) && At(html, p, "<" + t + ">") && e == p + 1 + |t|
    ensures p + 1 < |html| && html[p] == '<' && html[p + 1] != '/'
    ensures ScanUntil(html, p + 1, TagStops) == e && Lower(html[p + 1..e]) == t
    ensures html[e] == '>' && SkipSpace(html, e) == e
  {
    AtSplit(html, p, "<" + t, ">");
    AtSplit(html, p, "<", t);
    AtChar(html, p, "<", 0);
    AtChar(html, e, ">", 0);
    AtChar(html, p + 1, t, 0);
    ScanWord(html, p + 1, t, TagStops);
    LowerNoUpper(t);
  }

  /** "<t>" at p: parse_node reads the start tag and goes on with the body
      at b. */
  lemma StartTagRead(html: string, p: nat, b: nat, t: string)
    requires ReadableTag(t) && At(html, p, "<" + t + ">") && b == p + |t| + 2
    ensures html[p] == '<' && p + 1 < |html| && html[p + 1] != '/'
    ensures ParseNodeAt(html, p) == ParseBody(html, b, Node(t, "", map[], []), "")
  {
    var e := b - 1;
    StartTagChars(html, p, e, t);
    NodeStartStep(html, p, e, t);
    StartEndStep(html, e, t, map[]);
  }

  /** Chars other than '<' in the body are collected as text. */
  lemma {:induction false} BodyRun(html: string, pos: nat, end: nat, node: Node, text: string)
    requires node.tag != [] && ParsedShape(node)
    requires pos <= end <= |html| && forall k :: pos <= k < end ==> html[k] != '<'
    ensures ParseBody(html, pos, node, text) == ParseBody(html, end, node, text + html[pos..end])
    decreases end - pos
  {
    if pos == end {
      assert text + html[pos..end] == text;
    } else {
      BodyCharStep(html, pos, node, text);
      BodyRun(html, pos + 1, end, node, text + [html[pos]]);
      RunJoin(html, pos, end, text);
    }
  }

  lemma RunJoin(html: string, pos: nat, end: nat, text: string)
    requires pos < end <= |html|
    ensures text + [html[pos]] + html[pos + 1..end] == text + html[pos..end]
  {
    assert html[pos..end] == [html[pos]] + html[pos + 1..end];
  }

  /** Text s without markup at pos is collected whole; end is where it
      stops. */
  lemma BodyText(html: string, pos: nat, end: nat, node: Node, s: string)
    requires node.tag != [] && ParsedShape(node)
    requires end == pos + |s| && At(html, pos, s) && MarkupFree(s)
    ensures ParseBody(html, pos, node, "") == ParseBody(html, end, node, s)
  {
    TextChars(html, pos, s);
    BodyRun(html, pos, end, node, "");
  }

  lemma TextChars(html: string, pos: nat, s: string)
    requires At(html, pos, s) && MarkupFree(s)
    ensures forall k :: pos <= k < pos + |s| ==> html[k] != '<'
    ensures "" + html[pos..pos + |s|] == s
  {
    forall k | pos <= k < pos + |s| ensures html[k] != '<' {
      AtChar(html, pos, s, k - pos);
    }
  }

  /** The chars of "</t>" at pos, as the closing tag check looks at them; e
      is the position of the '>'. */
  lemma EndTagChars(html: string, pos: nat, e: nat, t: string)
    requires ReadableTag(t) && At(html, pos, "</" + t + ">") && e == pos + 2 + |t|
    ensures pos + 1 < |html| && html[pos] == '<' && html[pos + 1] == '/'
    ensures ScanUntil(html, pos + 2, {'>'}) == e && e < |html|
    ensures Lower(html[pos + 2..e]) == t
  {
    AtSplit(html, pos, "</" + t, ">");
    AtSplit(html, pos, "</", t);
    AtChar(html, pos, "</", 0);
    AtChar(html, pos, "</", 1);
    AtChar(html, e, ">", 0);
    ScanWord(html, pos + 2, t, {'>'});
    LowerNoUpper(t);
  }

  /** "</t>" at pos ends the body of t and the element, at fin. */
  lemma EndTagRead(html: string, pos: nat, fin: nat, node: Node, text: string, closed: Node)
    requires node.tag != [] && ParsedShape(node) && ReadableTag(node.tag)
    requires At(html, pos, "</" + node.tag + ">") && fin == pos + |node.tag| + 3
    requires closed == Closed(node, text)
    ensures ParseBody(html, pos, node, text) == Ok(Parsed(closed, fin))
  {
    var e := fin - 1;
    EndTagChars(html, pos, e, node.tag);
    BodyCloseStep(html, pos, node, text);
    CloseStep(html, pos, node, text, e);
  }

  lemma {:induction false} SimpleShape(n: Node)
    requires Simple(n)
    ensures ParsedShape(n)
    decreases n
  {
    forall i | 0 <= i < |n.children| ensures ParsedShape(n.children[i]) {
      SimpleShape(n.children[i]);
    }
  }

  /** How serialize lays out a simple leaf. */
  lemma LeafLayout(n: Node, level: nat, s: string)
    requires Simple(n) && n.children == [] && s == Element(n, level)
    ensures s == ("<" + n.tag + ">") + (Escape(n.text) + ("</" + n.tag + ">"))
  {
    LeafPieces(n, level);
    LeafParts("<" + n.tag, Escape(n.text), "</" + n.tag + ">");
  }

  /** The parts of a simple leaf's element. */
  lemma LeafPieces(n: Node, level: nat)
    requires Simple(n) && n.children == []
    ensures OpenTag(n) == "<" + n.tag && TextPart(n) == Escape(n.text)
    ensures ChildrenText(n, 0, level) == "" && CloseTag(n, level) == "</" + n.tag + ">"
  {
    NoAttributes();
    if n.text == [] {
      assert Escape(n.text) == [];
    }
  }

  lemma LeafParts(o: string, x: string, c: string)
    ensures o + ">" + x + "" + c == (o + ">") + (x + c)
  {
  }

  /** How serialize lays out a simple node with children. */
  lemma BlockLayout(n: Node, level: nat, s: string, body: string)
    requires Simple(n) && n.children != [] && s == Element(n, level)
    requires body == ChildrenText(n, 0, level) + CloseTag(n, level)
    ensures s == ("<" + n.tag + ">") + body
  {
    NoAttributes();
  }

  /** How serialize lays out child i and what follows it. */
  lemma ChildLayout(n: Node, level: nat, i: nat, s: string, w: string, e: string, r: string)
    requires Simple(n) && i < |n.children|
    requires s == ChildrenText(n, i, level) + CloseTag(n, level)
    requires w == Gap(n, level) && e == Element(n.children[i], ChildLevel(n, level))
    requires r == ChildrenText(n, i + 1, level) + CloseTag(n, level)
    ensures s == w + (e + r)
  {
    var c := n.children[i];
    var cl := ChildLevel(n, level);
    assert c.tag != [];
    assert Serialize(c, cl) == Indent(cl) + e;
    Regroup(ChildSeparator(n), Indent(cl), e, ChildrenText(n, i + 1, level), CloseTag(n, level));
  }

  lemma Regroup(a: string, b: string, c: string, d: string, e: string)
    ensures a + (b + c) + d + e == (a + b) + (c + (d + e))
  {
  }

  /** How serialize ends a simple node with children. */
  lemma EndLayout(n: Node, level: nat, s: string)
    requires Simple(n) && n.children != [] && s == ChildrenText(n, |n.children|, level) + CloseTag(n, level)
    ensures n.tag in InlineTags ==> s == "</" + n.tag + ">"
    ensures n.tag !in InlineTags ==> s == ("\n" + Indent(level)) + ("</" + n.tag + ">")
  {
  }

  /** The text between the children: a line break and the indent inside a
      block tag, nothing inside an inline tag. */
  function Gap(n: Node, level: nat): string {
    ChildSeparator(n) + Indent(ChildLevel(n, level))
  }

  lemma GapFree(n: Node, level: nat)
    ensures MarkupFree(Gap(n, level))
    ensures n.tag in InlineTags ==> Gap(n, level) == []
    ensures n.tag !in InlineTags ==> Gap(n, level) != []
  {
  }

  lemma TrailingBreak(level: nat)
    ensures MarkupFree("\n" + Indent(level))
    ensures Unescape(FileUtils.Trim("\n" + Indent(level))) == ""
  {
    assert FileUtils.AllIn("\n" + Indent(level), FileUtils.TrimSpace);
  }

  lemma At3(html: string, q: nat, a: string, b: string, c: string) returns (m1: nat, m2: nat)
    requires At(html, q, a + (b + c))
    ensures m1 == q + |a| && m2 == m1 + |b| && q + |a + (b + c)| == m2 + |c|
    ensures At(html, q, a) && At(html, m1, b) && At(html, m2, c)
  {
    m1 := q + |a|;
    m2 := m1 + |b|;
    AtSplit(html, q, a, b + c);
    AtSplit(html, m1, b, c);
  }

  lemma ChildSimple(n: Node, i: nat)
    requires Simple(n) && i < |n.children|
    ensures Simple(n.children[i]) && n.children[i].tag != []
  {
  }

  /** The trim and unescape at the closing tag give back the leaf's text. */
  lemma LeafClosed(t: string, text: string)
    requires Trimmed(text)
    ensures (if Escape(text) != [] then Node(t, "", map[], []).(text := Unescape(FileUtils.Trim(Escape(text))))
             else Node(t, "", map[], [])) == Node(t, text, map[], [])
  {
    var x := Escape(text);
    if x != [] {
      FileUtils.TrimUnchanged(x);
      UnescapeEscape(text);
    }
  }

  lemma LeafOpen(html: string, p: nat, b: nat, m: nat, t: string, text: string)
    requires ReadableTag(t)
    requires At(html, p, "<" + t + ">") && b == p + |t| + 2
    requires At(html, b, Escape(text)) && m == b + |Escape(text)|
    ensures ParseNodeAt(html, p) == ParseBody(html, m, Node(t, "", map[], []), Escape(text))
  {
    StartTagRead(html, p, b, t);
    BodyText(html, b, m, Node(t, "", map[], []), Escape(text));
  }

  lemma LeafClose(html: string, m: nat, fin: nat, t: string, text: string)
    requires ReadableTag(t) && Trimmed(text)
    requires At(html, m, "</" + t + ">") && fin == m + |t| + 3
    ensures ParseBody(html, m, Node(t, "", map[], []), Escape(text)) == Ok(Parsed(Node(t, text, map[], []), fin))
  {
    LeafClosed(t, text);
    EndTagRead(html, m, fin, Node(t, "", map[], []), Escape(text), Node(t, text, map[], []));
  }

  /** "<t>", escaped text and "</t>" from p on are read back as a leaf. */
  lemma LeafRead(html: string, p: nat, b: nat, m: nat, fin: nat, t: string, text: string)
    requires ReadableTag(t) && Trimmed(text)
    requires At(html, p, "<" + t + ">") && b == p + |t| + 2
    requires At(html, b, Escape(text)) && m == b + |Escape(text)|
    requires At(html, m, "</" + t + ">") && fin == m + |t| + 3
    ensures ParseNodeAt(html, p) == Ok(Parsed(Node(t, text, map[], []), fin))
  {
    LeafOpen(html, p, b, m, t, text);
    LeafClose(html, m, fin, t, text);
  }

  /** Where the parts of a leaf laid out at p sit. */
  lemma LeafAt(html: string, p: nat, fin: nat, t: string, x: string) returns (b: nat, m: nat)
    requires At(html, p, ("<" + t + ">") + (x + ("</" + t + ">")))
    requires fin == p + |("<" + t + ">") + (x + ("</" + t + ">"))|
    ensures At(html, p, "<" + t + ">") && b == p + |t| + 2
    ensures At(html, b, x) && m == b + |x|
    ensures At(html, m, "</" + t + ">") && fin == m + |t| + 3
  {
    b, m := At3(html, p, "<" + t + ">", x, "</" + t + ">");
  }

  /** A simple leaf, laid out as s at p, is read back. */
  lemma ElementLeaf(html: string, p: nat, fin: nat, n: Node, s: string)
    requires ReadableTag(n.tag) && Trimmed(n.text) && n.attributes == map[] && n.children == []
    requires s == ("<" + n.tag + ">") + (Escape(n.text) + ("</" + n.tag + ">"))
    requires At(html, p, s) && fin == p + |s|
    ensures ParseNodeAt(html, p) == Ok(Parsed(n, fin))
  {
    var b, m := LeafAt(html, p, fin, n.tag, Escape(n.text));
    assert n == Node(n.tag, n.text, map[], []);
    LeafRead(html, p, b, m, fin, n.tag, n.text);
  }

  /** Where the start tag and the children of a simple node with children
      sit in the input. */
  lemma BlockAt(html: string, p: nat, b: nat, fin: nat, n: Node, level: nat, s: string, body: string)
    requires Simple(n) && n.children != [] && s == Element(n, level) && At(html, p, s) && fin == p + |s|
    requires body == ChildrenText(n, 0, level) + CloseTag(n, level) && b == p + |n.tag| + 2
    ensures At(html, p, "<" + n.tag + ">") && At(html, b, body) && fin == b + |body|
  {
    BlockLayout(n, level, s, body);
    AtSplit(html, p, "<" + n.tag + ">", body);
  }

  lemma ElementStart(html: string, p: nat, n: Node, level: nat, s: string)
    requires Simple(n) && s == Element(n, level) && At(html, p, s)
    ensures html[p] == '<' && p + 1 < |html| && html[p + 1] != '/'
  {
    var t := n.tag;
    var open := "<" + t + ">";
    if n.children == [] {
      LeafLayout(n, level, s);
      AtSplit(html, p, open, Escape(n.text) + ("</" + t + ">"));
    } else {
      var body := ChildrenText(n, 0, level) + CloseTag(n, level);
      BlockLayout(n, level, s, body);
      AtSplit(html, p, open, body);
    }
    StartTagChars(html, p, p + 1 + |t|, t);
  }

  /** The element s that serialize writes, at p in the input, is parsed back
      as the same node, ending at fin. */
  lemma {:induction false} ElementRead(html: string, p: nat, fin: nat, n: Node, level: nat, s: string)
    requires Simple(n) && s == Element(n, level) && At(html, p, s) && fin == p + |s|
    ensures p < |html| && ElementAt(html, p, n, fin)
    decreases n, 1
  {
    ElementStart(html, p, n, level, s);
    if n.children == [] {
      LeafLayout(n, level, s);
      ElementLeaf(html, p, fin, n, s);
    } else {
      var b := p + |n.tag| + 2;
      var body := ChildrenText(n, 0, level) + CloseTag(n, level);
      BlockAt(html, p, b, fin, n, level, s, body);
      StartTagRead(html, p, b, n.tag);
      assert n.children[..0] == [];
      ChildrenRead(html, b, fin, n, level, 0, Node(n.tag, "", map[], []), body);
    }
  }

  /** An element that ends at fin starts at p. */
  predicate ElementAt(html: string, p: nat, n: Node, fin: nat)
    requires p < |html|
  {
    html[p] == '<' && p + 1 < |html| && html[p + 1] != '/' && ParseNodeAt(html, p) == Ok(Parsed(n, fin))
  }

  /** Gap text w at q, then a child element at `at` that ends at next. */
  lemma ChildStep(html: string, q: nat, at: nat, next: nat, cur: Node, w: string, c: Node)
    requires cur.tag != [] && ParsedShape(cur)
    requires at == q + |w| && At(html, q, w) && MarkupFree(w)
    requires at < |html| && ElementAt(html, at, c, next) && c.tag != []
    ensures ParseBody(html, q, cur, "")
         == ParseBody(html, next, WithText(cur, w).(children := cur.children + [c]), "")
  {
    BodyText(html, q, at, cur, w);
    BodyChildStep(html, at, cur, w, Parsed(c, next));
  }

  /** cur is n read up to child i: same tag, no attributes, the first i
      children, and no text yet inside an inline tag. */
  predicate Reading(n: Node, i: nat, cur: Node)
    requires i <= |n.children|
  {
    && cur.tag == n.tag && cur.attributes == map[] && cur.children == n.children[..i] && ParsedShape(cur)
    && (n.tag in InlineTags ==> cur.text == "")
  }

  /** The node after child i is appended keeps the shape ChildrenRead needs. */
  lemma NextChild(n: Node, level: nat, i: nat, cur: Node, w: string) returns (after: Node)
    requires Simple(n) && i < |n.children| && Reading(n, i, cur) && w == Gap(n, level)
    ensures after == WithText(cur, w).(children := cur.children + [n.children[i]])
    ensures Reading(n, i + 1, after)
  {
    after := WithText(cur, w).(children := cur.children + [n.children[i]]);
    GapFree(n, level);
    SimpleShape(n.children[i]);
    assert n.children[..i + 1] == n.children[..i] + [n.children[i]];
  }

  /** Child i, after the gap w at q, is read back and appended; the body
      goes on at next. */
  lemma {:induction false} ChildRead(html: string, q: nat, at: nat, n: Node, level: nat, i: nat, cur: Node, w: string, e: string)
      returns (next: nat, after: Node)
    requires Simple(n) && i < |n.children| && Reading(n, i, cur)
    requires w == Gap(n, level) && e == Element(n.children[i], ChildLevel(n, level))
    requires At(html, q, w) && at == q + |w| && At(html, at, e)
    ensures next == at + |e| && Reading(n, i + 1, after)
    ensures ParseBody(html, q, cur, "") == ParseBody(html, next, after, "")
    decreases n, 0, |n.children| - i, 0
  {
    GapFree(n, level);
    ChildSimple(n, i);
    ReadingShape(n, i, cur);
    SimpleShape(n.children[i]);
    next := ChildParsed(html, q, at, cur, w, n.children[i], ChildLevel(n, level), e);
    after := NextChild(n, level, i, cur, w);
  }

  lemma ReadingShape(n: Node, i: nat, cur: Node)
    requires Simple(n) && i <= |n.children| && Reading(n, i, cur)
    ensures cur.tag != [] && ParsedShape(cur)
  {
  }

  /** A simple child c laid out as e after the text w at q is read and
      appended. */
  lemma {:induction false} ChildParsed(html: string, q: nat, at: nat, cur: Node, w: string, c: Node, level: nat, e: string)
      returns (next: nat)
    requires cur.tag != [] && ParsedShape(cur) && MarkupFree(w) && At(html, q, w) && at == q + |w|
    requires Simple(c) && c.tag != [] && ParsedShape(c) && e == Element(c, level) && At(html, at, e)
    ensures next == at + |e|
    ensures ParseBody(html, q, cur, "")
         == ParseBody(html, next, WithText(cur, w).(children := cur.children + [c]), "")
    decreases c, 2
  {
    next := at + |e|;
    ElementRead(html, at, next, c, level, e);
    ChildStep(html, q, at, next, cur, w, c);
  }

  /** After the last child: the closing tag, preceded inside a block tag by a
      line break and the indent. */
  lemma ChildrenEnd(html: string, q: nat, fin: nat, n: Node, level: nat, cur: Node, s: string)
    requires Simple(n) && n.children != [] && Reading(n, |n.children|, cur)
    requires s == ChildrenText(n, |n.children|, level) + CloseTag(n, level) && At(html, q, s) && fin == q + |s|
    ensures ParseBody(html, q, cur, "") == Ok(Parsed(n, fin))
  {
    ReadingDone(n, cur);
    EndLayout(n, level, s);
    if n.tag in InlineTags {
      EndTagRead(html, q, fin, cur, "", n);
    } else {
      var w := "\n" + Indent(level);
      TrailingBreak(level);
      BlockEnd(html, q, fin, cur, w);
    }
  }

  /** White space w and the closing tag end a block element; the white
      space is trimmed away. */
  lemma BlockEnd(html: string, q: nat, fin: nat, cur: Node, w: string)
    requires cur.tag != [] && ParsedShape(cur) && ReadableTag(cur.tag)
    requires MarkupFree(w) && w != [] && Unescape(FileUtils.Trim(w)) == ""
    requires At(html, q, w + ("</" + cur.tag + ">")) && fin == q + |w + ("</" + cur.tag + ">")|
    ensures ParseBody(html, q, cur, "") == Ok(Parsed(cur.(text := ""), fin))
  {
    AtSplit(html, q, w, "</" + cur.tag + ">");
    var m := q + |w|;
    BodyText(html, q, m, cur, w);
    assert At(html, m, "</" + cur.tag + ">");
    assert fin == m + |cur.tag| + 3;
    EndTagRead(html, m, fin, cur, w, cur.(text := Unescape(FileUtils.Trim(w))));
  }

  /** Once every child is read, the node is n, whatever text a block tag
      collected before its closing tag is dropped. */
  lemma ReadingDone(n: Node, cur: Node)
    requires Simple(n) && n.children != [] && Reading(n, |n.children|, cur)
    ensures cur.(text := "") == n && (n.tag in InlineTags ==> cur == n)
    ensures cur.tag != [] && ParsedShape(cur)
  {
    assert cur.children == n.children;
  }

  /** The children from index i on and the closing tag, s, complete the
      node, ending at fin. */
  lemma {:induction false} ChildrenRead(html: string, q: nat, fin: nat, n: Node, level: nat, i: nat, cur: Node, s: string)
    requires Simple(n) && n.children != [] && i <= |n.children| && Reading(n, i, cur)
    requires s == ChildrenText(n, i, level) + CloseTag(n, level) && At(html, q, s) && fin == q + |s|
    ensures ParseBody(html, q, cur, "") == Ok(Parsed(n, fin))
    decreases n, 0, |n.children| - i, 2
  {
    if i == |n.children| {
      ChildrenEnd(html, q, fin, n, level, cur, s);
    } else {
      var next, after, r := ChildrenNext(html, q, fin, n, level, i, cur, s);
      ChildrenRead(html, next, fin, n, level, i + 1, after, r);
    }
  }

  /** Child i read at q: the gap and its element, then the rest r of the
      children's text at next. */
  lemma ChildrenNext(html: string, q: nat, fin: nat, n: Node, level: nat, i: nat, cur: Node, s: string)
      returns (next: nat, after: Node, r: string)
    requires Simple(n) && i < |n.children| && Reading(n, i, cur)
    requires s == ChildrenText(n, i, level) + CloseTag(n, level) && At(html, q, s) && fin == q + |s|
    ensures r == ChildrenText(n, i + 1, level) + CloseTag(n, level) && At(html, next, r) && fin == next + |r|
    ensures Reading(n, i + 1, after) && ParseBody(html, q, cur, "") == ParseBody(html, next, after, "")
    decreases n, 0, |n.children| - i, 1
  {
    var w := Gap(n, level);
    var e := Element(n.children[i], ChildLevel(n, level));
    r := ChildrenText(n, i + 1, level) + CloseTag(n, level);
    ChildLayout(n, level, i, s, w, e, r);
    var at, m := At3(html, q, w, e, r);
    next, after := ChildRead(html, q, at, n, level, i, cur, w, e);
    assert next == m;
  }

  /** deserialize(serialize(n)) == n for every simple tree. */
  lemma RoundTrip(n: Node)
    requires Simple(n)
    ensures Deserialized(Serialize(n, 0)) == Ok(n)
  {
    var h := Serialize(n, 0);
    assert h == Element(n, 0);
    assert At(h, 0, h);
    ElementRead(h, 0, |h|, n, 0, h);
  }

  // ---------------------------------------------------------------------
  // The errors deserialize reports

  /** Input that does not open an element after white space (only white
      space, text, or a closing tag) has no root element. */
  lemma NoRootElement(html: string)
    requires !StartsElement(html, 0) || (SkipSpace(html, 0) + 1 < |html| && html[SkipSpace(html, 0) + 1] == '/')
    ensures Deserialized(html) == Err("Invalid HTML: No root element found")
  {
    NoElementAt(html, 0);
  }

  lemma NoElementAt(html: string, pos: nat)
    requires pos <= |html|
    requires !StartsElement(html, pos) || (SkipSpace(html, pos) + 1 < |html| && html[SkipSpace(html, pos) + 1] == '/')
    ensures ParseNodeAt(html, pos).Ok? && ParseNodeAt(html, pos).value.node == EmptyNode
  {
  }

  /** A '<' that ends the input. */
  lemma EndAfterOpen(html: string)
    requires StartsElement(html, 0) && SkipSpace(html, 0) == |html| - 1
    ensures Deserialized(html) == Err("Invalid HTML: Unexpected end of input")
  {
  }

  /** '<' followed by a space or '>' has an empty tag name. */
  lemma EmptyTagName(html: string)
    requires StartsElement(html, 0)
    requires SkipSpace(html, 0) + 1 < |html| && html[SkipSpace(html, 0) + 1] in {' ', '>'}
    ensures Deserialized(html) == Err("Invalid HTML: Empty tag name")
  {
    var p := SkipSpace(html, 0);
    EmptyTagAt(html, p);
    assert ParseNodeAt(html, 0) == Err("Invalid HTML: Empty tag name");
  }

  lemma EmptyTagAt(html: string, p: nat)
    requires p + 1 < |html| && html[p + 1] in {' ', '>'}
    ensures ScanUntil(html, p + 1, TagStops) == p + 1 && Lower(html[p + 1..p + 1]) == []
  {
    assert html[p + 1] in TagStops;
    assert html[p + 1..p + 1] == [];
  }

  /** A start tag whose name and attributes run to the end of the input,
      with no '>' or '/' after the '<', lacks its '>'. */
  lemma MissingTagEnd(html: string)
    requires 1 < |html| && html[0] == '<' && html[1] !in TagStops
    requires forall k :: 1 <= k < |html| ==> html[k] != '>' && html[k] != '/'
    ensures Deserialized(html) == Err("Invalid HTML: Expected '>' after tag")
  {
    NoSpaceAt(html, 0);
    var e := ScanUntil(html, 1, TagStops);
    AttributesToEnd(html, SkipSpace(html, e), Lower(html[1..e]), map[]);
  }

  /** The attribute loop runs to the end of input that holds no '>' or '/'. */
  lemma {:induction false} AttributesToEnd(html: string, pos: nat, tag: string, attrs: map<string, string>)
    requires pos <= |html| && (pos < |html| ==> !IsSpace(html[pos]))
    requires tag != [] && ParsedShape(Node(tag, "", attrs, []))
    requires forall k :: pos <= k < |html| ==> html[k] != '>' && html[k] != '/'
    ensures ParseAttributes(html, pos, tag, attrs) == Err("Invalid HTML: Expected '>' after tag")
    decreases |html| - pos
  {
    if pos < |html| {
      SpaceCharsAreSpace(html[pos]);
      var a := AttributeAt(html, pos);
      var attrs' := if a.0 != [] then attrs[a.0 := a.1] else attrs;
      AttributesToEnd(html, SkipSpace(html, a.2), tag, attrs');
    }
  }

  /** "<t>", text without '<', then the closing tag of another element u:
      the closing tag does not match. */
  lemma MismatchedClosingTag(html: string, t: string, pos: nat, u: string)
    requires ReadableTag(t) && ReadableTag(u) && t != u
    requires At(html, 0, "<" + t + ">") && |t| + 2 <= pos
    requires At(html, pos, "</" + u + ">")
    requires forall k :: |t| + 2 <= k < pos ==> html[k] != '<'
    ensures Deserialized(html) == Err("Invalid HTML: Mismatched closing tag")
  {
    var b := |t| + 2;
    var node := Node(t, "", map[], []);
    StartTagRead(html, 0, b, t);
    BodyRun(html, b, pos, node, "");
    ClosingMismatch(html, pos, node, "" + html[b..pos], u);
  }

  /** A closing tag of another element where the body reads one. */
  lemma ClosingMismatch(html: string, pos: nat, node: Node, text: string, u: string)
    requires node.tag != [] && ParsedShape(node) && ReadableTag(u) && u != node.tag
    requires At(html, pos, "</" + u + ">")
    ensures ParseBody(html, pos, node, text) == Err("Invalid HTML: Mismatched closing tag")
  {
    var e := pos + 2 + |u|;
    EndTagChars(html, pos, e, u);
    BodyCloseStep(html, pos, node, text);
  }

  /** A body that runs to the end of the input without a '<' is missing its
      closing tag. */
  lemma UnclosedBody(html: string, pos: nat, node: Node, text: string)
    requires node.tag != [] && ParsedShape(node)
    requires pos <= |html| && forall k :: pos <= k < |html| ==> html[k] != '<'
    ensures ParseBody(html, pos, node, text) == Err("Invalid HTML: Missing closing tag for " + node.tag)
  {
    BodyRun(html, pos, |html|, node, text);
    BodyEnd(html, node, text + html[pos..]);
  }

  lemma BodyEnd(html: string, node: Node, text: string)
    requires node.tag != [] && ParsedShape(node)
    ensures ParseBody(html, |html|, node, text) == Err("Invalid HTML: Missing closing tag for " + node.tag)
  {
  }
}
