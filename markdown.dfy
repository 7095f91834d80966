/** The markdown document tree of parsers/markdown/markdown.hpp and its two
    serializers: back to markdown text, and into the tag tree that the HTML
    serializer writes. */
module Markdown {
  import opened Wrappers
  import opened Chars
  import opened StdString
  import Html

  datatype NodeType =
    | Document | Heading | Paragraph | CodeBlock | InlineCode | Bold | Italic | Link | Image
    | List | ListItem | Quote | Table | TableRow | TableCell | Text | LineBreak | HorizontalRule

  /** markdown::Node.  The heading level is never negative in a tree the
      parser builds; the model keeps it a nat. */
  datatype Node = Node(kind: NodeType, text: string, attributes: map<string, string>, children: seq<Node>, level: nat)

  /** Node(type): no text, no attributes, no children, level 0. */
  function Empty(k: NodeType): Node { Node(k, "", map[], [], 0) }

  /** Node(type, text). */
  function Leaf(k: NodeType, text: string): Node { Node(k, text, map[], [], 0) }

  /** The attributes the serializers read with std::map::at are present:
      href on every link, src and alt on every image. */
  predicate WellFormed(n: Node)
    decreases n
  {
    (n.kind == Link ==> "href" in n.attributes)
    && (n.kind == Image ==> "src" in n.attributes && "alt" in n.attributes)
    && forall i :: 0 <= i < |n.children| ==> WellFormed(n.children[i])
  }

  // ---------------------------------------------------------------------
  // Serializer::markdown / serialize_markdown_node

  /** std::string(k, c). */
  function Repeat(c: char, k: nat): (r: string)
    ensures |r| == k && forall i :: 0 <= i < k ==> r[i] == c
  {
    if k == 0 then "" else Repeat(c, k - 1) + [c]
  }

  /** The separator line written after the first table row: one " --- |"
      per cell of that row. */
  function SeparatorLine(cells: nat): string {
    "|" + SeparatorCells(cells) + "\n"
  }

  function SeparatorCells(cells: nat): string {
    if cells == 0 then "" else SeparatorCells(cells - 1) + " --- |"
  }

  /** The kinds a document follows with an empty line. */
  predicate IsBlock(k: NodeType) {
    k in {Paragraph, Heading, CodeBlock, List, Quote, Table, HorizontalRule}
  }

  function Language(n: Node): string {
    if "language" in n.attributes then n.attributes["language"] else ""
  }

  predicate IsOrderedItem(n: Node) {
    "ordered" in n.attributes && n.attributes["ordered"] == "true"
  }

  function ItemPrefix(n: Node): string {
    if IsOrderedItem(n) then "1. " else "- "
  }

  /** serialize_markdown_node(oss, node, depth): what it writes to oss. */
  function MarkdownOf(n: Node, depth: nat): string
    requires WellFormed(n)
    decreases n, 1
  {
    match n.kind
    case Document => DocumentText(n, |n.children|, depth)
    case Heading => Repeat('#', n.level) + " " + n.text + "\n"
    case Paragraph => Inner(n, |n.children|, depth) + n.text + "\n"
    case CodeBlock => "```" + Language(n) + "\n" + n.text + "\n```\n"
    case InlineCode => "`" + n.text + "`"
    case Bold => "**" + Inner(n, |n.children|, depth) + n.text + "**"
    case Italic => "*" + Inner(n, |n.children|, depth) + n.text + "*"
    case Link => "[" + n.text + "](" + n.attributes["href"] + ")"
    case Image => "![" + n.attributes["alt"] + "](" + n.attributes["src"] + ")"
    case List => Inner(n, |n.children|, depth)
    case ListItem => Repeat(' ', 2 * depth) + ItemPrefix(n) + Inner(n, |n.children|, depth + 1) + n.text + "\n"
    case Quote => "> " + Inner(n, |n.children|, depth) + n.text + "\n"
    case Table => TableText(n, |n.children|, depth)
    case TableRow => "|" + RowText(n, |n.children|, depth) + "\n"
    case TableCell => n.text + Inner(n, |n.children|, depth)
    case Text => n.text
    case LineBreak => "  \n"
    case HorizontalRule => "---\n"
  }

  /** The first k children, one after the other. */
  function Inner(n: Node, k: nat, depth: nat): string
    requires WellFormed(n) && k <= |n.children|
    decreases n, 0, k
  {
    if k == 0 then "" else Inner(n, k - 1, depth) + MarkdownOf(n.children[k - 1], depth)
  }

  /** The first k children of a document, each block followed by "\n". */
  function DocumentText(n: Node, k: nat, depth: nat): string
    requires WellFormed(n) && k <= |n.children|
    decreases n, 0, k
  {
    if k == 0 then ""
    else
      var c := n.children[k - 1];
      DocumentText(n, k - 1, depth) + MarkdownOf(c, depth) + (if IsBlock(c.kind) then "\n" else "")
  }

  /** The first k rows of a table, the separator line after row 0. */
  function TableText(n: Node, k: nat, depth: nat): string
    requires WellFormed(n) && k <= |n.children|
    decreases n, 0, k
  {
    if k == 0 then ""
    else
      TableText(n, k - 1, depth) + MarkdownOf(n.children[k - 1], depth)
      + (if k == 1 then SeparatorLine(|n.children[0].children|) else "")
  }

  /** The first k cells of a row, each as " cell |". */
  function RowText(n: Node, k: nat, depth: nat): string
    requires WellFormed(n) && k <= |n.children|
    decreases n, 0, k
  {
    if k == 0 then "" else RowText(n, k - 1, depth) + " " + MarkdownOf(n.children[k - 1], depth) + " |"
  }

  /** Serializer::markdown. */
  function ToMarkdown(n: Node): string
    requires WellFormed(n)
  {
    MarkdownOf(n, 0)
  }

  method SerializeMarkdownNode(n: Node, depth: nat) returns (out: string)
    requires WellFormed(n)
    ensures out == MarkdownOf(n, depth)
    decreases n, 1
  {
    match n.kind {
      case Document =>
        out := "";
        var i := 0;
        while i < |n.children|
          invariant 0 <= i <= |n.children|
          invariant out == DocumentText(n, i, depth)
        {
          var child := SerializeMarkdownNode(n.children[i], depth);
          out := out + child;
          if IsBlock(n.children[i].kind) {
            out := out + "\n";
          }
          i := i + 1;
        }
      case Heading =>
        out := Repeat('#', n.level) + " " + n.text + "\n";
      case Paragraph =>
        out := WriteInner(n, depth);
        out := out + n.text + "\n";
      case CodeBlock =>
        var language := if "language" in n.attributes then n.attributes["language"] else "";
        out := "```" + language + "\n" + n.text + "\n```\n";
      case InlineCode =>
        out := "`" + n.text + "`";
      case Bold =>
        var inner := WriteInner(n, depth);
        out := "**" + inner + n.text + "**";
      case Italic =>
        var inner := WriteInner(n, depth);
        out := "*" + inner + n.text + "*";
      case Link =>
        out := "[" + n.text + "](" + n.attributes["href"] + ")";
      case Image =>
        out := "![" + n.attributes["alt"] + "](" + n.attributes["src"] + ")";
      case List =>
        out := WriteInner(n, depth);
      case ListItem =>
        var prefix := if IsOrderedItem(n) then "1. " else "- ";
        var inner := WriteInner(n, depth + 1);
        out := Repeat(' ', 2 * depth) + prefix + inner + n.text + "\n";
      case Quote =>
        var inner := WriteInner(n, depth);
        out := "> " + inner + n.text + "\n";
      case Table =>
        out := "";
        var i := 0;
        while i < |n.children|
          invariant 0 <= i <= |n.children|
          invariant out == TableText(n, i, depth)
        {
          var row := SerializeMarkdownNode(n.children[i], depth);
          out := out + row;
          if i == 0 {
            out := out + SeparatorLine(|n.children[0].children|);
          }
          i := i + 1;
        }
      case TableRow =>
        var cells := "";
        var i := 0;
        while i < |n.children|
          invariant 0 <= i <= |n.children|
          invariant cells == RowText(n, i, depth)
        {
          var cell := SerializeMarkdownNode(n.children[i], depth);
          cells := cells + " " + cell + " |";
          i := i + 1;
        }
        out := "|" + cells + "\n";
      case TableCell =>
        var inner := WriteInner(n, depth);
        out := n.text + inner;
      case Text =>
        out := n.text;
      case LineBreak =>
        out := "  \n";
      case HorizontalRule =>
        out := "---\n";
    }
  }

  /** The child loop shared by the container kinds. */
  method WriteInner(n: Node, depth: nat) returns (out: string)
    requires WellFormed(n)
    ensures out == Inner(n, |n.children|, depth)
    decreases n, 0
  {
    out := "";
    var i := 0;
    while i < |n.children|
      invariant 0 <= i <= |n.children|
      invariant out == Inner(n, i, depth)
    {
      var child := SerializeMarkdownNode(n.children[i], depth);
      out := out + child;
      i := i + 1;
    }
  }

  // ---------------------------------------------------------------------
  // Serializer::html / convert_to_html_node

  /** The text child appended after the converted children when the node
      has text of its own. */
  function TextChild(n: Node): seq<Html.Node> {
    if n.text != [] then [Html.Node("", n.text, map[], [])] else []
  }

  /** The tag of a container kind, with its class. */
  function Container(n: Node, tag: string, cssClass: string, withText: bool): Html.Node
    requires WellFormed(n)
    decreases n, 1
  {
    Html.Node(tag, "", map["class" := cssClass], Converted(n, |n.children|) + (if withText then TextChild(n) else []))
  }

  /** convert_to_html_node. */
  function ToHtml(n: Node): Html.Node
    requires WellFormed(n)
    decreases n, 2
  {
    match n.kind
    case Document => Html.Node("div", "", map[], Converted(n, |n.children|))
    case Heading => Html.Node("h" + NatToString(n.level), n.text, map["class" := "heading-primary"], [])
    case Paragraph => Container(n, "p", "paragraph", true)
    case CodeBlock =>
      var code := if "language" in n.attributes then map["class" := "language-" + n.attributes["language"]] else map[];
      Html.Node("pre", "", map["class" := "code-block"], [Html.Node("code", n.text, code, [])])
    case InlineCode => Html.Node("code", n.text, map["class" := "inline-code"], [])
    case Bold => Container(n, "strong", "bold", true)
    case Italic => Container(n, "em", "italic", true)
    case Link => Html.Node("a", n.text, map["href" := n.attributes["href"], "class" := "link"], [])
    case Image => Html.Node("img", "", map["src" := n.attributes["src"], "alt" := n.attributes["alt"], "class" := "image"], [])
    case List => Container(n, "ul", "list", false)
    case ListItem => Container(n, "li", "list-item", true)
    case Quote => Container(n, "blockquote", "quote", true)
    case Table => Container(n, "table", "table", false)
    case TableRow => Container(n, "tr", "table-row", false)
    case TableCell => Container(n, "td", "table-cell", true)
    case Text => Html.Node("", n.text, map[], [])
    case LineBreak => Html.Node("br", "", map["class" := "line-break"], [])
    case HorizontalRule => Html.Node("hr", "", map["class" := "horizontal-rule"], [])
  }

  /** The first k children, converted. */
  function Converted(n: Node, k: nat): (r: seq<Html.Node>)
    requires WellFormed(n) && k <= |n.children|
    ensures |r| == k
    decreases n, 0, k
  {
    if k == 0 then [] else Converted(n, k - 1) + [ToHtml(n.children[k - 1])]
  }

  /** Serializer::html. */
  function ToHtmlText(n: Node): string
    requires WellFormed(n)
  {
    Html.Serialize(ToHtml(n), 0)
  }

  // ---------------------------------------------------------------------
  // What the conversion keeps

  /** The kind a converted tag stands for, read back from the tag alone. */
  function KindOf(tag: string): Option<NodeType> {
    if tag == "div" then Some(Document)
    else if tag == "p" then Some(Paragraph)
    else if tag == "pre" then Some(CodeBlock)
    else if tag == "code" then Some(InlineCode)
    else if tag == "strong" then Some(Bold)
    else if tag == "em" then Some(Italic)
    else if tag == "a" then Some(Link)
    else if tag == "img" then Some(Image)
    else if tag == "ul" then Some(List)
    else if tag == "li" then Some(ListItem)
    else if tag == "blockquote" then Some(Quote)
    else if tag == "table" then Some(Table)
    else if tag == "tr" then Some(TableRow)
    else if tag == "td" then Some(TableCell)
    else if tag == "" then Some(Text)
    else if tag == "br" then Some(LineBreak)
    else if tag == "hr" then Some(HorizontalRule)
    else if |tag| >= 2 && tag[0] == 'h' && forall i :: 1 <= i < |tag| ==> IsDigit(tag[i]) then Some(Heading)
    else None
  }

  /** A heading tag reads back as a heading of the same level. */
  lemma HeadingTag(level: nat)
    ensures var tag := "h" + NatToString(level);
      KindOf(tag) == Some(Heading) && DecimalValue(tag[1..]) == level
  {
    var digits := NatToString(level);
    var tag := "h" + digits;
    assert tag[1..] == digits;
    assert IsDigit(tag[1]);
    NatToStringValue(level);
  }

  /** Every kind gets a tag of its own, and a heading's tag spells its
      level. */
  lemma ConvertedKind(n: Node)
    requires WellFormed(n)
    ensures KindOf(ToHtml(n).tag) == Some(n.kind)
    ensures n.kind == Heading ==> DecimalValue(ToHtml(n).tag[1..]) == n.level
  {
    if IsContainer(n.kind) {
      ContainerKind(n);
    } else {
      LeafKind(n);
    }
  }

  /** The tags the container kinds convert to. */
  lemma ContainerTags()
    ensures KindOf("p") == Some(Paragraph) && KindOf("strong") == Some(Bold) && KindOf("em") == Some(Italic)
    ensures KindOf("ul") == Some(List) && KindOf("li") == Some(ListItem) && KindOf("blockquote") == Some(Quote)
    ensures KindOf("table") == Some(Table) && KindOf("tr") == Some(TableRow) && KindOf("td") == Some(TableCell)
  {
  }

  lemma ContainerKind(n: Node)
    requires WellFormed(n) && IsContainer(n.kind)
    ensures KindOf(ToHtml(n).tag) == Some(n.kind)
  {
    ContainerTags();
    if n.kind == Paragraph {
      ContainerTag(n, "p", "paragraph", true);
    } else if n.kind == Bold {
      ContainerTag(n, "strong", "bold", true);
    } else if n.kind == Italic {
      ContainerTag(n, "em", "italic", true);
    } else if n.kind == List {
      ContainerTag(n, "ul", "list", false);
    } else if n.kind == ListItem {
      ContainerTag(n, "li", "list-item", true);
    } else if n.kind == Quote {
      ContainerTag(n, "blockquote", "quote", true);
    } else if n.kind == Table {
      ContainerTag(n, "table", "table", false);
    } else if n.kind == TableRow {
      ContainerTag(n, "tr", "table-row", false);
    } else {
      assert n.kind == TableCell;
      ContainerTag(n, "td", "table-cell", true);
    }
  }

  lemma LeafKind(n: Node)
    requires WellFormed(n) && !IsContainer(n.kind)
    ensures KindOf(ToHtml(n).tag) == Some(n.kind)
    ensures n.kind == Heading ==> DecimalValue(ToHtml(n).tag[1..]) == n.level
  {
    var tag := ToHtml(n).tag;
    match n.kind
    case Heading => HeadingTag(n.level);
    case Document => assert tag == "div";
    case CodeBlock => assert tag == "pre";
    case InlineCode => assert tag == "code";
    case Link => assert tag == "a";
    case Image => assert tag == "img";
    case Text => assert tag == "";
    case LineBreak => assert tag == "br";
    case HorizontalRule => assert tag == "hr";
  }

  lemma ContainerTag(n: Node, tag: string, cssClass: string, withText: bool)
    requires WellFormed(n)
    ensures Container(n, tag, cssClass, withText).tag == tag
  {
  }

  /** The i-th converted child is the conversion of the i-th child. */
  lemma {:induction false} ConvertedAt(n: Node, k: nat, i: nat)
    requires WellFormed(n) && i < k <= |n.children|
    ensures Converted(n, k)[i] == ToHtml(n.children[i])
    decreases k
  {
    if i < k - 1 {
      ConvertedAt(n, k - 1, i);
    }
  }

  /** The kinds converted through Container, with whether their text follows
      the children. */
  predicate IsContainer(k: NodeType) {
    k in {Paragraph, Bold, Italic, List, ListItem, Quote, Table, TableRow, TableCell}
  }

  predicate KeepsText(k: NodeType) {
    k in {Paragraph, Bold, Italic, ListItem, Quote, TableCell}
  }

  /** A container's children are converted one for one and in order; its own
      text becomes one more child after them, for the kinds that keep it. */
  lemma ContainerChildren(n: Node)
    requires WellFormed(n) && (IsContainer(n.kind) || n.kind == Document)
    ensures var h := ToHtml(n);
      |h.children| == |n.children| + (if KeepsText(n.kind) && n.text != [] then 1 else 0)
      && (forall i :: 0 <= i < |n.children| ==> h.children[i] == ToHtml(n.children[i]))
      && (KeepsText(n.kind) && n.text != [] ==> h.children[|n.children|] == Html.Node("", n.text, map[], []))
  {
    forall i | 0 <= i < |n.children| {
      ConvertedAt(n, |n.children|, i);
    }
  }

  /** A code block becomes pre > code holding the text; the HTML serializer
      writes that text raw exactly when the block has a language. */
  lemma CodeBlockRaw(n: Node)
    requires WellFormed(n) && n.kind == CodeBlock
    ensures var h := ToHtml(n);
      h.tag == "pre" && |h.children| == 1 && h.children[0].tag == "code" && h.children[0].text == n.text
      && (Html.KeepsRawText(h.children[0]) <==> "language" in n.attributes)
  {
    if "language" in n.attributes {
      var c := "language-" + n.attributes["language"];
      assert c[..9] == "language-";
    }
  }

  /** Inline code is always escaped. */
  lemma InlineCodeEscaped(n: Node)
    requires WellFormed(n) && n.kind == InlineCode
    ensures !Html.KeepsRawText(ToHtml(n)) && Html.TextPart(ToHtml(n)) == (if n.text == [] then "" else Html.Escape(n.text))
  {
    var c := "inline-code";
    assert c[..9][0] != "language-"[0];
  }
}
