/** The content manager (core/content.cpp): the front-matter field
    dispatch of parse_content, the inline heading classes, the lookup by
    route, the per-directory index pages and the output-path rule of
    write_output.  Reading and writing files is left to the caller: the
    model takes the text read and returns the writes to make. */
module Content {
  import opened Wrappers
  import opened StdString
  import opened StdMap
  import opened Chars
  import FileUtils
  import Markdown
  import MarkdownParser

  // ---------------------------------------------------------------------
  // ContentMeta and ContentFile

  /** ContentMeta. */
  datatype Meta = Meta(title: string, layout: string, date: string, classes: seq<string>, tags: seq<string>,
                       customFields: map<string, string>)

  const DEFAULT_LAYOUT := "default"

  /** A default-constructed ContentMeta. */
  const NewMeta := Meta("", DEFAULT_LAYOUT, "", [], [], map[])

  /** ContentFile.  Of its source path only the stem of the file name is
      kept, which is all the generator reads of it; it is "" for the
      index pages, which have no source. */
  datatype ContentFile = ContentFile(sourceStem: string, route: string, slug: string, meta: Meta,
                                     ast: Markdown.Node, renderedHtml: string)

  // ---------------------------------------------------------------------
  // parse_content: the front-matter field dispatch

  /** The keys parse_content stores in fields of their own. */
  predicate Reserved(key: string) {
    key == "title" || key == "layout" || key == "date" || key == "classes" || key == "tags"
  }

  /** A classes or tags value: parse_array of a bracketed list, otherwise
      the value as the only item. */
  function ListValue(value: string): seq<string> {
    if FileUtils.StartsWith(value, "[") && FileUtils.EndsWith(value, "]") then FileUtils.QuotedItems(value)
    else [value]
  }

  /** One pass of the metadata loop. */
  function WithField(meta: Meta, key: string, value: string): Meta {
    if key == "title" then meta.(title := value)
    else if key == "layout" then meta.(layout := value)
    else if key == "date" then meta.(date := value)
    else if key == "classes" then meta.(classes := ListValue(value))
    else if key == "tags" then meta.(tags := ListValue(value))
    else meta.(customFields := meta.customFields[key := value])
  }

  /** The front matter md applied to meta: each reserved key sets its own
      field, every other key becomes a custom field. */
  function MetaOf(meta: Meta, md: map<string, string>): Meta {
    Meta(
      if "title" in md then md["title"] else meta.title,
      if "layout" in md then md["layout"] else meta.layout,
      if "date" in md then md["date"] else meta.date,
      if "classes" in md then ListValue(md["classes"]) else meta.classes,
      if "tags" in md then ListValue(md["tags"]) else meta.tags,
      meta.customFields + Customs(md))
  }

  /** The entries of md under keys that are not reserved. */
  function Customs(md: map<string, string>): map<string, string> {
    map k | k in md && !Reserved(k) :: md[k]
  }

  /** The entries of md under the keys ks. */
  function Restrict(md: map<string, string>, ks: set<string>): (r: map<string, string>)
    ensures r.Keys == md.Keys * ks
  {
    map k | k in md && k in ks :: md[k]
  }

  /** The metadata loop of parse_content.  The source visits the keys in
      ascending order; the loop here takes them in any order, which gives
      the same fields since every key writes a field of its own. */
  method ApplyMetadata(meta: Meta, md: map<string, string>) returns (r: Meta)
    ensures r == MetaOf(meta, md)
  {
    r := meta;
    var keys := md.Keys;
    MetaOfNothing(meta, md);
    while keys != {}
      invariant keys <= md.Keys
      invariant r == MetaOf(meta, Restrict(md, md.Keys - keys))
      decreases keys
    {
      var k :| k in keys;
      MetaStep(meta, md, md.Keys - keys, k);
      r := WithField(r, k, md[k]);
      assert md.Keys - (keys - {k}) == (md.Keys - keys) + {k};
      keys := keys - {k};
    }
    assert Restrict(md, md.Keys - {}) == md;
  }

  lemma MetaOfNothing(meta: Meta, md: map<string, string>)
    ensures MetaOf(meta, Restrict(md, md.Keys - md.Keys)) == meta
  {
    var none := Restrict(md, md.Keys - md.Keys);
    assert none == map[];
    assert Customs(none) == map[];
    assert meta.customFields + map[] == meta.customFields;
  }

  /** Visiting one more key applies its field on top of the others. */
  lemma MetaStep(meta: Meta, md: map<string, string>, done: set<string>, k: string)
    requires k in md && k !in done
    ensures MetaOf(meta, Restrict(md, done + {k})) == WithField(MetaOf(meta, Restrict(md, done)), k, md[k])
  {
    var a := Restrict(md, done);
    RestrictStep(md, done, k);
    CustomsStep(a, k, md[k]);
    if !Reserved(k) {
      UpdateUnion(meta.customFields, Customs(a), k, md[k]);
    }
  }

  lemma RestrictStep(md: map<string, string>, done: set<string>, k: string)
    requires k in md
    ensures Restrict(md, done + {k}) == Restrict(md, done)[k := md[k]]
  {
  }

  lemma CustomsStep(a: map<string, string>, k: string, v: string)
    ensures Customs(a[k := v]) == if Reserved(k) then Customs(a) - {k} else Customs(a)[k := v]
  {
  }

  lemma UpdateUnion(m: map<string, string>, c: map<string, string>, k: string, v: string)
    ensures m + c[k := v] == (m + c)[k := v]
  {
  }

  /** Every front-matter key lands in exactly one place: a reserved key in
      its own field, any other key among the custom fields, which never
      receive a reserved key. */
  lemma FieldDispatch(meta: Meta, md: map<string, string>, key: string)
    requires key in md
    ensures var r := MetaOf(meta, md);
      (key == "title" ==> r.title == md[key]) &&
      (key == "layout" ==> r.layout == md[key]) &&
      (key == "date" ==> r.date == md[key]) &&
      (key == "classes" ==> r.classes == ListValue(md[key])) &&
      (key == "tags" ==> r.tags == ListValue(md[key])) &&
      (!Reserved(key) ==> key in r.customFields && r.customFields[key] == md[key])
    ensures forall k :: k in MetaOf(meta, md).customFields ==> k in meta.customFields || (k in md && !Reserved(k))
  {
  }

  /** A bracketed list of quoted names is read as those names. */
  lemma ListValueBracketed(items: seq<string>, sep: string)
    requires forall k :: 0 <= k < |items| ==> items[k] != [] && '"' !in items[k]
    requires '"' !in sep
    ensures ListValue("[" + FileUtils.Quoted(items, sep) + "]") == items
  {
    var v := "[" + FileUtils.Quoted(items, sep) + "]";
    assert v[0] == '[' && v[|v| - 1] == ']';
    assert FileUtils.StartsWith(v, "[") && FileUtils.EndsWith(v, "]");
    QuotedBracketed(items, sep);
  }

  /** parse_array reads a bracketed quoted list back. */
  lemma QuotedBracketed(items: seq<string>, sep: string)
    requires forall k :: 0 <= k < |items| ==> items[k] != [] && '"' !in items[k]
    requires '"' !in sep
    ensures FileUtils.QuotedItems("[" + FileUtils.Quoted(items, sep) + "]") == items
  {
    var v := "[" + FileUtils.Quoted(items, sep) + "]";
    if items == [] {
      assert v == "[]";
      FindCharNone(v, '"', 0);
    } else {
      var q := FileUtils.Quoted(items[1..], sep);
      assert FileUtils.Quoted(items, sep) == sep + "\"" + items[0] + "\"" + q;
      Regroup("[", sep, "\"", items[0], q, "]");
      FileUtils.QuotedHead("[" + sep, items[0], q + "]");
      FileUtils.ParseArrayRoundTrip(items[1..], sep, "]");
      assert items == [items[0]] + items[1..];
    }
  }

  lemma Regroup(a: string, b: string, c: string, d: string, e: string, f: string)
    ensures a + (b + c + d + c + e) + f == (a + b) + c + d + c + (e + f)
  {
  }

  /** A value without brackets is the only item. */
  lemma ListValuePlain(value: string)
    requires value == [] || value[0] != '['
    ensures ListValue(value) == [value]
  {
  }

  // ---------------------------------------------------------------------
  // parse_inline_classes: (#+\s*[^-]+)\s*---\s*classes\[([^\]]+)\]

  /** Where a match of the inline-class pattern lies: it starts at the '#'
      at start, the heading (group 1) runs up to headingEnd, where "---"
      begins, and the class list (group 2) is s[listStart..listEnd], with
      the closing ']' at listEnd. */
  datatype Match = Match(start: nat, headingEnd: nat, listStart: nat, listEnd: nat)

  /** x is a match of the pattern: a '#', a heading free of '-', "---",
      white space, "classes[", a non-empty list free of ']' and a ']'. */
  predicate IsMatch(s: string, x: Match) {
    x.start < |s| && s[x.start] == '#' && x.start + 2 <= x.headingEnd &&
    x.headingEnd + 3 + 8 <= x.listStart < x.listEnd < |s| &&
    At(s, x.headingEnd, "---") && At(s, x.listStart - 8, "classes[") &&
    (forall k :: x.start < k < x.headingEnd ==> s[k] != '-') &&
    (forall k :: x.headingEnd + 3 <= k < x.listStart - 8 ==> IsSpace(s[k])) &&
    (forall k :: x.listStart <= k < x.listEnd ==> s[k] != ']') &&
    s[x.listEnd] == ']'
  }

  /** The match of the pattern that begins at i, if any.  The pattern is
      deterministic once its start is fixed: [^-]+ stops at the first '-'
      after the '#', where "---" has to begin. */
  function MatchAt(s: string, i: nat): (r: Option<Match>)
    ensures r.Some? ==> r.value.start == i && r.value.headingEnd < r.value.listEnd < |s|
  {
    if i >= |s| || s[i] != '#' then None
    else
      var m := FindChar(s, '-', i + 1);
      if m.None? || m.value < i + 2 then None
      else match TailAt(s, m.value)
        case None => None
        case Some(t) => Some(Match(i, m.value, t.0, t.1))
  }

  /** The rest of a match once the heading ends at m: "---", then \s*,
      which takes every white-space char, then the class list.  The
      result is where the list starts and where its ']' is. */
  function TailAt(s: string, m: nat): (r: Option<(nat, nat)>)
    ensures r.Some? ==> m + 3 + 8 <= r.value.0 && At(s, m, "---") && At(s, r.value.0 - 8, "classes[")
    ensures r.Some? ==> forall k :: m + 3 <= k < r.value.0 - 8 ==> IsSpace(s[k])
    ensures r.Some? ==> r.value.0 < r.value.1 < |s| && s[r.value.1] == ']'
    ensures r.Some? ==> forall k :: r.value.0 <= k < r.value.1 ==> s[k] != ']'
  {
    if !At(s, m, "---") then None
    else
      var w := SkipSpace(s, m + 3);
      SkipSpaceSkips(s, m + 3);
      match ListAt(s, w)
      case None => None
      case Some(c) => Some((w + 8, c))
  }

  /** "classes[" at w, then [^\]]+, which stops at the first ']'. */
  function ListAt(s: string, w: nat): (r: Option<nat>)
    ensures r.Some? ==> At(s, w, "classes[") && w + 8 < r.value < |s| && s[r.value] == ']'
    ensures r.Some? ==> forall k :: w + 8 <= k < r.value ==> s[k] != ']'
  {
    if !At(s, w, "classes[") then None
    else
      var c := FindChar(s, ']', w + 8);
      if c.None? || c.value == w + 8 then None else Some(c.value)
  }

  /** What MatchAt finds is a match. */
  lemma MatchAtSound(s: string, i: nat)
    ensures MatchAt(s, i).Some? ==> IsMatch(s, MatchAt(s, i).value)
  {
  }

  /** The converse: every match is the one found at its start. */
  lemma MatchAtIsMatch(s: string, x: Match)
    requires IsMatch(s, x)
    ensures MatchAt(s, x.start) == Some(x)
  {
    var i, m := x.start, x.headingEnd;
    AtChar(s, m, "---", 0);
    FindCharFirst(s, '-', i + 1, m);
    TailAtIs(s, m, x.listStart - 8, x.listEnd);
    MatchAtFrom(s, i, m, x.listStart, x.listEnd);
    assert x == Match(i, m, x.listStart, x.listEnd);
  }

  lemma MatchAtFrom(s: string, i: nat, m: nat, b: nat, c: nat)
    requires i < |s| && s[i] == '#' && i + 2 <= m
    requires FindChar(s, '-', i + 1) == Some(m)
    requires TailAt(s, m) == Some((b, c))
    ensures MatchAt(s, i) == Some(Match(i, m, b, c))
  {
  }

  lemma TailAtIs(s: string, m: nat, w: nat, c: nat)
    requires m + 3 <= w && At(s, m, "---") && At(s, w, "classes[")
    requires forall k :: m + 3 <= k < w ==> IsSpace(s[k])
    requires w + 8 < c < |s| && s[c] == ']'
    requires forall k :: w + 8 <= k < c ==> s[k] != ']'
    ensures TailAt(s, m) == Some((w + 8, c))
  {
    AtChar(s, w, "classes[", 0);
    SkipSpaceTo(s, m + 3, w);
    FindCharFirst(s, ']', w + 8, c);
  }

  /** The leftmost match at or after i: what std::regex_search finds. */
  function FirstMatch(s: string, i: nat): (r: Option<Match>)
    ensures r.Some? ==> i <= r.value.start && MatchAt(s, r.value.start) == r
    decreases |s| - i
  {
    if i >= |s| then None
    else if MatchAt(s, i).Some? then MatchAt(s, i)
    else FirstMatch(s, i + 1)
  }

  /** No match starts before the one found. */
  lemma {:induction false} FirstMatchLeftmost(s: string, i: nat, j: nat)
    requires FirstMatch(s, i).Some? && i <= j < FirstMatch(s, i).value.start
    ensures MatchAt(s, j).None?
    decreases |s| - i
  {
    if j > i {
      FirstMatchLeftmost(s, i + 1, j);
    }
  }

  /** No match starts anywhere when none is found. */
  lemma {:induction false} FirstMatchNone(s: string, i: nat, j: nat)
    requires FirstMatch(s, i).None? && i <= j < |s|
    ensures MatchAt(s, j).None?
    decreases |s| - i
  {
    var m := MatchAt(s, i);
    assert FirstMatch(s, i) == if m.Some? then m else FirstMatch(s, i + 1);
    if j > i {
      FirstMatchNone(s, i + 1, j);
    }
  }

  /** A match with none before it is the one regex_search finds. */
  lemma {:induction false} FirstMatchIs(s: string, i: nat, x: Match)
    requires i <= x.start && MatchAt(s, x.start) == Some(x)
    requires forall j :: i <= j < x.start ==> MatchAt(s, j).None?
    ensures FirstMatch(s, i) == Some(x)
    decreases x.start - i
  {
    if i < x.start {
      FirstMatchIs(s, i + 1, x);
    }
  }

  /** The text once every match is replaced by its heading, and the classes
      of every match in the order they were found.  Each round searches
      from the start of the text again, as the source's loop does; a
      replacement drops "---" and the class list, so the text shrinks. */
  function InlineClasses(s: string): (r: (string, seq<string>))
    ensures FirstMatch(r.0, 0).None? && |r.0| <= |s|
    ensures forall k :: 0 <= k < |r.1| ==> r.1[k] != [] && '"' !in r.1[k]
    decreases |s|
  {
    match FirstMatch(s, 0)
    case None => (s, [])
    case Some(x) =>
      var rest := InlineClasses(s[..x.headingEnd] + s[x.listEnd + 1..]);
      (rest.0, FileUtils.QuotedItems(s[x.listStart..x.listEnd]) + rest.1)
  }

  /** ContentFile::parse_inline_classes: the classes found are appended to
      classes, which holds those of the front matter. */
  method ParseInlineClasses(content: string, classes: seq<string>) returns (processed: string, all: seq<string>)
    ensures processed == InlineClasses(content).0
    ensures all == classes + InlineClasses(content).1
  {
    processed := content;
    all := classes;
    var found := FirstMatch(processed, 0);
    while found.Some?
      invariant found == FirstMatch(processed, 0)
      invariant InlineClasses(processed).0 == InlineClasses(content).0
      invariant all + InlineClasses(processed).1 == classes + InlineClasses(content).1
      decreases |processed|
    {
      var x := found.value;
      var items := FileUtils.ParseArray(processed[x.listStart..x.listEnd]);
      var next := processed[..x.headingEnd] + processed[x.listEnd + 1..];
      InlineClassesStep(processed, x);
      MatchAtSound(processed, x.start);
      assert |next| < |processed|;
      SeqAssoc(all, items, InlineClasses(next).1);
      all := all + items;
      processed := next;
      found := FirstMatch(processed, 0);
    }
  }

  /** One round of the loop: the first match is replaced by its heading. */
  lemma InlineClassesStep(s: string, x: Match)
    requires FirstMatch(s, 0) == Some(x)
    ensures var next := s[..x.headingEnd] + s[x.listEnd + 1..];
      InlineClasses(s) == (InlineClasses(next).0, FileUtils.QuotedItems(s[x.listStart..x.listEnd]) + InlineClasses(next).1)
  {
  }

  /** Text without a '-' has no match and is left as it is. */
  lemma InlineClassesPlain(s: string)
    requires '-' !in s
    ensures InlineClasses(s) == (s, [])
  {
    if FirstMatch(s, 0).Some? {
      var x := FirstMatch(s, 0).value;
      MatchAtSound(s, x.start);
      AtChar(s, x.headingEnd, "---", 0);
    }
  }

  /** A heading that carries a class list loses "---", the white space
      after it and the list, keeps the white space before "---", and
      contributes the classes named in the list. */
  lemma InlineClassesHeading(pre: string, heading: string, space: string, list: string, rest: string)
    requires '#' !in pre
    requires |heading| >= 2 && heading[0] == '#' && '-' !in heading
    requires forall k :: 0 <= k < |space| ==> IsSpace(space[k])
    requires list != [] && ']' !in list
    ensures var s := pre + heading + "---" + space + "classes[" + list + "]" + rest;
      InlineClasses(s) == (InlineClasses(pre + heading + rest).0,
                           FileUtils.QuotedItems(list) + InlineClasses(pre + heading + rest).1)
  {
    var s := pre + heading + "---" + space + "classes[" + list + "]" + rest;
    var x := HeadingLayout(pre, heading, space, list, rest, s);
    FirstMatchIs(s, 0, x);
    assert s[..x.headingEnd] + s[x.listEnd + 1..] == pre + heading + rest;
  }

  /** Where the parts of a heading with a class list lie, and that they
      form the leftmost match. */
  lemma HeadingLayout(pre: string, heading: string, space: string, list: string, rest: string, s: string)
    returns (x: Match)
    requires '#' !in pre
    requires |heading| >= 2 && heading[0] == '#' && '-' !in heading
    requires forall k :: 0 <= k < |space| ==> IsSpace(space[k])
    requires list != [] && ']' !in list
    requires s == pre + heading + "---" + space + "classes[" + list + "]" + rest
    ensures x.start == |pre| && MatchAt(s, x.start) == Some(x)
    ensures forall j :: 0 <= j < x.start ==> MatchAt(s, j).None?
    ensures s[..x.headingEnd] == pre + heading && s[x.listEnd + 1..] == rest
    ensures s[x.listStart..x.listEnd] == list
  {
    var m := |pre| + |heading|;
    var w := m + 3 + |space|;
    x := Match(|pre|, m, w + 8, w + 8 + |list|);
    forall j | 0 <= j < |pre| ensures MatchAt(s, j).None? {
      assert s[j] == pre[j];
    }
    HeadingParts(pre, heading, space, list, rest, s, x);
    MatchAtIsMatch(s, x);
  }

  lemma HeadingParts(pre: string, heading: string, space: string, list: string, rest: string, s: string, x: Match)
    requires |heading| >= 2 && heading[0] == '#' && '-' !in heading
    requires forall k :: 0 <= k < |space| ==> IsSpace(space[k])
    requires list != [] && ']' !in list
    requires s == pre + heading + "---" + space + "classes[" + list + "]" + rest
    requires x.start == |pre| && x.headingEnd == x.start + |heading|
    requires x.listStart == x.headingEnd + 3 + |space| + 8 && x.listEnd == x.listStart + |list|
    ensures IsMatch(s, x)
    ensures s[..x.headingEnd] == pre + heading && s[x.listEnd + 1..] == rest
    ensures s[x.listStart..x.listEnd] == list
  {
    var m, b := x.headingEnd, x.listStart;
    var w := b - 8;
    var tail := "]" + rest;
    assert s == pre + heading + "---" + space + "classes[" + list + tail;
    assert s[..m] == pre + heading;
    assert s[m..m + 3] == "---";
    assert s[m + 3..w] == space;
    assert s[w..b] == "classes[";
    assert s[b..x.listEnd] == list;
    assert s[x.listEnd..] == tail;
    Spans(s, x.start, m, heading, '-');
    Spans(s, b, x.listEnd, list, ']');
    forall k | m + 3 <= k < w ensures IsSpace(s[k]) {
      assert s[k] == s[m + 3..w][k - (m + 3)];
    }
  }

  /** A slice that equals t holds no c when t holds none. */
  lemma Spans(s: string, lo: nat, hi: nat, t: string, c: char)
    requires lo <= hi <= |s| && s[lo..hi] == t && c !in t
    ensures forall k :: lo <= k < hi ==> s[k] != c
  {
    forall k | lo <= k < hi ensures s[k] != c {
      assert s[k] == t[k - lo];
    }
  }

  // ---------------------------------------------------------------------
  // ContentFile: parse_content, render_html, generate_route

  /** What parse_content makes of raw: the front matter sets the meta
      fields, the classes named inline follow those of the front matter,
      and the body with the class lists taken out is parsed as Markdown. */
  function Parsed(file: ContentFile, raw: string): ContentFile {
    var fm := FileUtils.Frontmatter(raw);
    var meta := MetaOf(file.meta, fm.metadata);
    var inline := InlineClasses(fm.content);
    file.(meta := meta.(classes := meta.classes + inline.1), ast := MarkdownParser.Deserialized(inline.0))
  }

  /** ContentFile::parse_content. */
  method ParseContent(file: ContentFile, raw: string) returns (r: ContentFile)
    ensures r == Parsed(file, raw)
  {
    var fm := FileUtils.ParseFrontmatter(raw);
    var meta := ApplyMetadata(file.meta, fm.metadata);
    var content, classes := ParseInlineClasses(fm.content, meta.classes);
    var ast := MarkdownParser.Deserialize(content);
    r := file.(meta := meta.(classes := classes), ast := ast);
  }

  /** parse_content leaves a well-formed tree, keeps the route and the
      slug, and takes every key of the front matter as ApplyMetadata does;
      a text without front matter gives the meta it started from, apart
      from the inline classes. */
  lemma ParsedFields(file: ContentFile, raw: string)
    ensures var r := Parsed(file, raw);
      Markdown.WellFormed(r.ast) && r.route == file.route && r.slug == file.slug &&
      r.sourceStem == file.sourceStem && r.renderedHtml == file.renderedHtml
    ensures var fm := FileUtils.Frontmatter(raw);
      Parsed(file, raw).meta.classes[..|MetaOf(file.meta, fm.metadata).classes|] == MetaOf(file.meta, fm.metadata).classes
    ensures !FileUtils.StartsWith(raw, "---") ==>
      Parsed(file, raw).meta == file.meta.(classes := file.meta.classes + InlineClasses(raw).1)
  {
    var fm := FileUtils.Frontmatter(raw);
    MarkdownParser.DeserializedWellFormed(InlineClasses(fm.content).0);
    if !FileUtils.StartsWith(raw, "---") {
      assert fm.metadata == map[];
      NoKeys(file.meta);
    }
  }

  /** A front matter without keys changes nothing. */
  lemma NoKeys(meta: Meta)
    ensures MetaOf(meta, map[]) == meta
  {
    assert Customs(map[]) == map[];
    assert meta.customFields + map[] == meta.customFields;
  }

  /** ContentFile::render_html. */
  function Rendered(file: ContentFile): (r: ContentFile)
    requires Markdown.WellFormed(file.ast)
    ensures r.renderedHtml == Markdown.ToHtmlText(file.ast)
    ensures r == file.(renderedHtml := r.renderedHtml)
  {
    file.(renderedHtml := Markdown.ToHtmlText(file.ast))
  }

  /** The index of the last c in s. */
  function LastIndex(s: string, c: char): (r: Option<nat>)
    ensures r.Some? ==> r.value < |s| && s[r.value] == c && forall k :: r.value < k < |s| ==> s[k] != c
    ensures r.None? ==> forall k :: 0 <= k < |s| ==> s[k] != c
  {
    if s == [] then None
    else if s[|s| - 1] == c then Some(|s| - 1)
    else LastIndex(s[..|s| - 1], c)
  }

  lemma {:induction false} LastIndexIs(s: string, c: char, k: nat)
    requires k < |s| && s[k] == c && forall j :: k < j < |s| ==> s[j] != c
    ensures LastIndex(s, c) == Some(k)
    decreases |s|
  {
    if k < |s| - 1 {
      LastIndexIs(s[..|s| - 1], c, k);
    }
  }

  /** path::filename: what follows the last '/'. */
  function FileName(path: string): string {
    match LastIndex(path, '/')
    case None => path
    case Some(k) => path[k + 1..]
  }

  /** path::stem: the file name without its last extension; a name
      whose only '.' leads it, and "." and "..", are kept whole. */
  function Stem(path: string): string {
    var name := FileName(path);
    if name == "." || name == ".." then name
    else match LastIndex(name, '.')
      case None => name
      case Some(k) => if k == 0 then name else name[..k]
  }

  /** The stem of dir/name.md is name. */
  lemma StemOfPage(dir: string, name: string)
    requires name != [] && '/' !in name && '.' !in name
    requires dir == [] || dir[|dir| - 1] == '/'
    ensures Stem(dir + name + ".md") == name
  {
    var path := dir + name + ".md";
    var file := name + ".md";
    if dir == [] {
      assert path == file;
      assert LastIndex(path, '/') == None;
    } else {
      forall j | |dir| - 1 < j < |path| ensures path[j] != '/' {
        assert path[j] == file[j - |dir|];
      }
      LastIndexIs(path, '/', |dir| - 1);
      assert path[|dir|..] == file;
    }
    assert FileName(path) == file;
    LastIndexIs(file, '.', |name|);
    assert file[..|name|] == name;
  }

  /** A file of the content tree, read from relative (its path below the
      content directory) with the text raw: generate_route, parse_content
      and render_html, as scan_content runs them. */
  function Scanned(relative: string, raw: string): (r: ContentFile)
    ensures Markdown.WellFormed(r.ast) && r.renderedHtml == Markdown.ToHtmlText(r.ast)
  {
    var blank := ContentFile(Stem(relative), FileUtils.PathToRoute(relative), Stem(relative), NewMeta,
                             Markdown.Empty(Markdown.Document), "");
    ParsedFields(blank, raw);
    Rendered(Parsed(blank, raw))
  }

  /** The files of a scan, in the order of sources. */
  function ScannedAll(sources: seq<(string, string)>): (r: seq<ContentFile>)
    ensures |r| == |sources|
    ensures forall k :: 0 <= k < |r| ==> Markdown.WellFormed(r[k].ast) && r[k].renderedHtml == Markdown.ToHtmlText(r[k].ast)
  {
    if sources == [] then []
    else ScannedAll(sources[..|sources| - 1]) + [Scanned(sources[|sources| - 1].0, sources[|sources| - 1].1)]
  }

  /** File k of a scan is source k read and rendered. */
  lemma {:induction false} ScannedAllAt(sources: seq<(string, string)>, k: nat)
    requires k < |sources|
    ensures ScannedAll(sources)[k] == Scanned(sources[k].0, sources[k].1)
    decreases |sources|
  {
    if k < |sources| - 1 {
      ScannedAllAt(sources[..|sources| - 1], k);
    }
  }

  // ---------------------------------------------------------------------
  // generate_indexes

  /** path::parent_path of a path whose '/' separators are never
      repeated: everything before the last '/', the root "/" when that is
      the leading one, and "" for a single relative name. */
  function Parent(path: string): (r: string)
    ensures |r| <= |path|
  {
    match LastIndex(path, '/')
    case None => ""
    case Some(k) => if k == 0 then "/" else path[..k]
  }

  /** The directory a route is grouped under, if any: has_parent_path and
      a parent other than the root. */
  function IndexDir(route: string): Option<string> {
    var p := Parent(route);
    if p != "" && p != "/" then Some(p) else None
  }

  /** A top-level route is grouped nowhere. */
  lemma IndexDirTop(name: string)
    requires '/' !in name
    ensures IndexDir("/" + name) == None
  {
    var r := "/" + name;
    forall j | 0 < j < |r| ensures r[j] != '/' {
      assert r[j] == name[j - 1];
    }
    LastIndexIs(r, '/', 0);
  }

  /** A route below a directory is grouped under that directory. */
  lemma IndexDirNested(dir: string, name: string)
    requires |dir| >= 2 && dir[0] == '/' && '/' !in name
    ensures IndexDir(dir + "/" + name) == Some(dir)
  {
    var r := dir + "/" + name;
    forall j | |dir| < j < |r| ensures r[j] != '/' {
      assert r[j] == name[j - |dir| - 1];
    }
    LastIndexIs(r, '/', |dir|);
    assert r[..|dir|] == dir;
  }

  /** The directories map of generate_indexes: each directory with the
      files under it, in the order of files.  Values stand for the
      pointers the source stores. */
  function Grouped(files: seq<ContentFile>): (g: map<string, seq<ContentFile>>)
    ensures forall d :: d in g ==> g[d] != []
  {
    if files == [] then map[]
    else
      var g := Grouped(files[..|files| - 1]);
      var f := files[|files| - 1];
      match IndexDir(f.route)
      case None => g
      case Some(d) => g[d := (if d in g then g[d] else []) + [f]]
  }

  /** The files of files grouped under d, in order. */
  function Members(files: seq<ContentFile>, d: string): (r: seq<ContentFile>)
    ensures forall k :: 0 <= k < |r| ==> r[k] in files && IndexDir(r[k].route) == Some(d)
  {
    if files == [] then []
    else Members(files[..|files| - 1], d) + (if IndexDir(files[|files| - 1].route) == Some(d) then [files[|files| - 1]] else [])
  }

  /** The directories map holds, for every directory that some file is
      grouped under and for no other, exactly the files grouped under it. */
  lemma {:induction false} GroupedAt(files: seq<ContentFile>, d: string)
    ensures d in Grouped(files) <==> Members(files, d) != []
    ensures d in Grouped(files) ==> Grouped(files)[d] == Members(files, d)
  {
    if files != [] {
      GroupedAt(files[..|files| - 1], d);
    }
  }

  /** One line of an index page. */
  function Entry(file: ContentFile): string {
    "- [" + file.meta.title + "](" + file.route + ")\n"
  }

  function Entries(files: seq<ContentFile>): string {
    if files == [] then "" else Entries(files[..|files| - 1]) + Entry(files[|files| - 1])
  }

  function IndexTitle(dir: string): string { "Index of " + dir }

  /** The Markdown text of the index page of dir. */
  function IndexMarkdown(dir: string, files: seq<ContentFile>): string {
    "# " + IndexTitle(dir) + "\n\n" + Entries(files)
  }

  /** The index page of dir: a ContentFile with no source, slug "index",
      the default layout and the rendered list of files. */
  function IndexPage(dir: string, files: seq<ContentFile>): (r: ContentFile)
    ensures r.route == dir && r.slug == "index" && r.sourceStem == ""
    ensures r.meta == NewMeta.(title := "Index of " + dir) && Markdown.WellFormed(r.ast)
  {
    var ast := MarkdownParser.Deserialized(IndexMarkdown(dir, files));
    MarkdownParser.DeserializedWellFormed(IndexMarkdown(dir, files));
    ContentFile("", dir, "index", NewMeta.(title := IndexTitle(dir)), ast, Markdown.ToHtmlText(ast))
  }

  /** The index pages for the directories keys, in that order: one for
      each directory holding more than one file. */
  function Pages(groups: map<string, seq<ContentFile>>, keys: seq<string>): (r: seq<ContentFile>)
    requires forall k :: 0 <= k < |keys| ==> keys[k] in groups
    ensures forall k :: 0 <= k < |r| ==> Markdown.WellFormed(r[k].ast)
  {
    if keys == [] then []
    else
      var d := keys[|keys| - 1];
      Pages(groups, keys[..|keys| - 1]) + (if |groups[d]| > 1 then [IndexPage(d, groups[d])] else [])
  }

  lemma PagesSnoc(groups: map<string, seq<ContentFile>>, keys: seq<string>, j: nat)
    requires forall k :: 0 <= k < |keys| ==> keys[k] in groups
    requires j < |keys|
    ensures Pages(groups, keys[..j + 1]) ==
      Pages(groups, keys[..j]) + (if |groups[keys[j]]| > 1 then [IndexPage(keys[j], groups[keys[j]])] else [])
  {
    assert keys[..j + 1][..j] == keys[..j];
  }

  /** What generate_indexes appends: the index pages in ascending order of
      directory, as std::map visits them. */
  function IndexPages(files: seq<ContentFile>): seq<ContentFile> {
    var g := Grouped(files);
    Pages(g, SortedKeys(g.Keys))
  }

  /** Strictly ascending in std::string order. */
  predicate Ascending(keys: seq<string>) {
    forall i, j :: 0 <= i < j < |keys| ==> LexLe(keys[i], keys[j]) && keys[i] != keys[j]
  }

  predicate AscendingRoutes(files: seq<ContentFile>) {
    forall i, j :: 0 <= i < j < |files| ==> LexLe(files[i].route, files[j].route) && files[i].route != files[j].route
  }

  /** Every index page is that of a directory holding more than one file,
      listing exactly the files under it. */
  lemma IndexPagesAre(files: seq<ContentFile>)
    ensures forall p :: p in IndexPages(files) ==>
      |Members(files, p.route)| > 1 && p == IndexPage(p.route, Members(files, p.route))
  {
    var g := Grouped(files);
    PagesFrom(g, SortedKeys(g.Keys));
    forall p | p in IndexPages(files) ensures |Members(files, p.route)| > 1 && p == IndexPage(p.route, Members(files, p.route)) {
      GroupedAt(files, p.route);
    }
  }

  /** Every directory holding more than one file has an index page. */
  lemma IndexPagesCover(files: seq<ContentFile>, d: string)
    requires |Members(files, d)| > 1
    ensures exists p :: p in IndexPages(files) && p.route == d
  {
    var g := Grouped(files);
    var keys := SortedKeys(g.Keys);
    GroupedAt(files, d);
    assert d in keys;
    var k :| 0 <= k < |keys| && keys[k] == d;
    PagesHas(g, keys, k);
  }

  /** The index pages come in ascending order of route, one per route. */
  lemma IndexPagesAscending(files: seq<ContentFile>)
    ensures AscendingRoutes(IndexPages(files))
  {
    var g := Grouped(files);
    PagesAscending(g, SortedKeys(g.Keys));
  }

  /** Each page of Pages is the index page of one of its keys. */
  lemma {:induction false} PagesFrom(groups: map<string, seq<ContentFile>>, keys: seq<string>)
    requires forall k :: 0 <= k < |keys| ==> keys[k] in groups
    ensures forall p :: p in Pages(groups, keys) ==>
      p.route in keys && |groups[p.route]| > 1 && p == IndexPage(p.route, groups[p.route])
  {
    if keys != [] {
      PagesFrom(groups, keys[..|keys| - 1]);
    }
  }

  /** Pages keeps the order of ascending keys. */
  lemma {:induction false} PagesAscending(groups: map<string, seq<ContentFile>>, keys: seq<string>)
    requires forall k :: 0 <= k < |keys| ==> keys[k] in groups
    requires Ascending(keys)
    ensures AscendingRoutes(Pages(groups, keys))
  {
    if keys != [] {
      var front := keys[..|keys| - 1];
      var last := keys[|keys| - 1];
      PagesAscending(groups, front);
      PagesFrom(groups, front);
      var ps0 := Pages(groups, front);
      forall i | 0 <= i < |ps0| ensures LexLe(ps0[i].route, last) && ps0[i].route != last {
        assert ps0[i] in ps0;
        var a :| 0 <= a < |front| && front[a] == ps0[i].route;
        assert keys[a] == front[a];
      }
    }
  }

  /** A key whose group holds more than one file has its page. */
  lemma {:induction false} PagesHas(groups: map<string, seq<ContentFile>>, keys: seq<string>, k: nat)
    requires forall i :: 0 <= i < |keys| ==> keys[i] in groups
    requires k < |keys| && |groups[keys[k]]| > 1
    ensures exists p :: p in Pages(groups, keys) && p.route == keys[k]
    decreases |keys|
  {
    if k < |keys| - 1 {
      PagesHas(groups, keys[..|keys| - 1], k);
      var p :| p in Pages(groups, keys[..|keys| - 1]) && p.route == keys[k];
      assert p in Pages(groups, keys);
    } else {
      assert IndexPage(keys[k], groups[keys[k]]) in Pages(groups, keys);
    }
  }

  /** Two files under one directory, beside a page at that directory:
      the directory gets an index page, whose route is the page's own. */
  lemma IndexShadowsPage(page: ContentFile, a: ContentFile, b: ContentFile, name: string, na: string, nb: string)
    requires name != [] && '/' !in name && '/' !in na && '/' !in nb
    requires page.route == "/" + name
    requires a.route == "/" + name + "/" + na && b.route == "/" + name + "/" + nb
    ensures IndexPages([page, a, b]) == [IndexPage("/" + name, [a, b])]
  {
    var dir := "/" + name;
    IndexDirTop(name);
    IndexDirNested(dir, na);
    IndexDirNested(dir, nb);
    GroupedShadow(page, a, b, dir);
    var g := Grouped([page, a, b]);
    SortedSingleton(dir);
    assert Pages(g, [dir]) == Pages(g, []) + [IndexPage(dir, [a, b])];
  }

  lemma GroupedShadow(page: ContentFile, a: ContentFile, b: ContentFile, dir: string)
    requires IndexDir(page.route).None? && IndexDir(a.route) == Some(dir) && IndexDir(b.route) == Some(dir)
    ensures Grouped([page, a, b]) == map[dir := [a, b]]
  {
    var none: map<string, seq<ContentFile>> := map[];
    GroupedStep([], page);
    assert [] + [page] == [page];
    assert Grouped([page]) == none;
    GroupedStep([page], a);
    assert [page] + [a] == [page, a];
    var single: seq<ContentFile> := [a];
    assert [] + single == single;
    assert Grouped([page, a]) == none[dir := single];
    GroupedStep([page, a], b);
    assert [page, a] + [b] == [page, a, b];
    assert [a] + [b] == [a, b];
  }

  /** One more file joins the group of its directory, if it has one. */
  lemma GroupedStep(files: seq<ContentFile>, f: ContentFile)
    ensures IndexDir(f.route).None? ==> Grouped(files + [f]) == Grouped(files)
    ensures IndexDir(f.route).Some? ==> var d := IndexDir(f.route).value;
      Grouped(files + [f]) == Grouped(files)[d := (if d in Grouped(files) then Grouped(files)[d] else []) + [f]]
  {
    assert (files + [f])[..|files|] == files;
  }

  // ---------------------------------------------------------------------
  // write_output

  /** path::operator/= on POSIX: an absolute rhs replaces the path;
      otherwise a '/' goes between unless the path is empty or already
      ends in one. */
  function PathJoin(dir: string, rel: string): string {
    if rel != [] && rel[0] == '/' then rel
    else if dir == [] || dir[|dir| - 1] == '/' then dir + rel
    else dir + "/" + rel
  }

  /** The file write_output writes the page at route to: index.html for
      the root, otherwise the route without its leading '/', plus ".html". */
  function OutputFile(outputDir: string, route: string): string {
    if route == "/" then PathJoin(outputDir, "index.html")
    else PathJoin(outputDir, if FileUtils.StartsWith(route, "/") then route[1..] else route) + ".html"
  }

  /** The separator PathJoin puts after dir. */
  function Sep(dir: string): string {
    if dir == [] || dir[|dir| - 1] == '/' then "" else "/"
  }

  /** A route with one leading '/' is written to its path below the output
      directory. */
  lemma OutputFilePage(outputDir: string, route: string)
    requires |route| >= 2 && route[0] == '/' && route[1] != '/'
    ensures OutputFile(outputDir, route) == outputDir + Sep(outputDir) + route[1..] + ".html"
  {
    assert FileUtils.StartsWith(route, "/") by { assert route[..1] == "/"; }
  }

  /** Distinct routes are written to distinct files, except that the root
      and "/index" both go to index.html. */
  lemma OutputFileInjective(outputDir: string, r1: string, r2: string)
    requires |r1| >= 1 && r1[0] == '/' && (|r1| >= 2 ==> r1[1] != '/')
    requires |r2| >= 1 && r2[0] == '/' && (|r2| >= 2 ==> r2[1] != '/')
    requires r1 != r2 && !(r1 == "/" && r2 == "/index") && !(r1 == "/index" && r2 == "/")
    ensures OutputFile(outputDir, r1) != OutputFile(outputDir, r2)
  {
    var j := outputDir + Sep(outputDir);
    if r1 != "/" && r2 != "/" {
      OutputFilePage(outputDir, r1);
      OutputFilePage(outputDir, r2);
      assert r1 == [r1[0]] + r1[1..] && r2 == [r2[0]] + r2[1..];
      AppendInjective(j, r1[1..], r2[1..], ".html");
    } else if r1 == "/" {
      RootOnly(outputDir, r2);
    } else {
      RootOnly(outputDir, r1);
    }
  }

  lemma RootOnly(outputDir: string, r: string)
    requires |r| >= 2 && r[0] == '/' && r[1] != '/' && r != "/index"
    ensures OutputFile(outputDir, "/") != OutputFile(outputDir, r)
  {
    var j := outputDir + Sep(outputDir);
    OutputFilePage(outputDir, r);
    OutputFileRoot(outputDir);
    assert r == "/" + r[1..];
    AppendInjective(j, "index", r[1..], ".html");
  }

  /** The root page is written to index.html in the output directory. */
  lemma OutputFileRoot(outputDir: string)
    ensures OutputFile(outputDir, "/") == outputDir + Sep(outputDir) + "index" + ".html"
  {
    assert "index.html" == "index" + ".html";
  }

  lemma AppendInjective(j: string, a: string, b: string, x: string)
    requires a != b
    ensures j + a + x != j + b + x
  {
    if |a| == |b| {
      var k :| 0 <= k < |a| && a[k] != b[k];
      assert (j + a + x)[|j| + k] == a[k];
      assert (j + b + x)[|j| + k] == b[k];
    }
  }

  /** The root page and a page at "/index" are written to the same file. */
  lemma RootCollision(outputDir: string)
    ensures OutputFile(outputDir, "/") == OutputFile(outputDir, "/index")
  {
    OutputFilePage(outputDir, "/index");
    assert "/index"[1..] == "index";
  }

  /** What the output directory holds after the writes, in order: a later
      write to a file replaces an earlier one. */
  function Written(writes: seq<(string, string)>): map<string, string> {
    if writes == [] then map[]
    else Written(writes[..|writes| - 1])[writes[|writes| - 1].0 := writes[|writes| - 1].1]
  }

  /** A file holds what the last write to it wrote. */
  lemma {:induction false} LastWriteWins(writes: seq<(string, string)>, k: nat)
    requires k < |writes| && forall j :: k < j < |writes| ==> writes[j].0 != writes[k].0
    ensures writes[k].0 in Written(writes) && Written(writes)[writes[k].0] == writes[k].1
    decreases |writes|
  {
    if k < |writes| - 1 {
      LastWriteWins(writes[..|writes| - 1], k);
    }
  }

  // ---------------------------------------------------------------------
  // ContentManager

  /** No file before index k has the route. */
  predicate FirstAt(files: seq<ContentFile>, route: string, k: nat) {
    forall j :: 0 <= j < k && j < |files| ==> files[j].route != route
  }

  /** ContentManager: the content and output directories and the files
      read from the content tree, followed by the index pages once
      GenerateIndexes has run. */
  class Manager {
    const contentDir: string
    const outputDir: string
    var contentFiles: seq<ContentFile>

    /** Every tree held can be rendered. */
    predicate Valid()
      reads this
    {
      forall k :: 0 <= k < |contentFiles| ==> Markdown.WellFormed(contentFiles[k].ast)
    }

    constructor(contentPath: string, outputPath: string)
      ensures contentDir == contentPath && outputDir == outputPath
      ensures contentFiles == [] && Valid()
    {
      contentDir := contentPath;
      outputDir := outputPath;
      contentFiles := [];
    }

    /** scan_content.  sources holds each Markdown file below the content
        directory, in the order the directory walk yields them, as its
        path relative to the content directory and its text. */
    method ScanContent(sources: seq<(string, string)>)
      modifies this
      ensures Valid()
      ensures contentFiles == ScannedAll(sources)
    {
      contentFiles := [];
      var i := 0;
      while i < |sources|
        invariant 0 <= i <= |sources|
        invariant contentFiles == ScannedAll(sources[..i])
      {
        var file := ScanFile(sources[i].0, sources[i].1);
        assert sources[..i + 1][..i] == sources[..i];
        contentFiles := contentFiles + [file];
        i := i + 1;
      }
      assert sources[..i] == sources;
    }

    /** process_all: every file is rendered again from its tree. */
    method ProcessAll()
      requires Valid()
      modifies this
      ensures Valid() && |contentFiles| == |old(contentFiles)|
      ensures forall k :: 0 <= k < |contentFiles| ==> contentFiles[k] == Rendered(old(contentFiles)[k])
    {
      var i := 0;
      while i < |contentFiles|
        invariant 0 <= i <= |contentFiles| == |old(contentFiles)|
        invariant forall k :: 0 <= k < i ==> contentFiles[k] == Rendered(old(contentFiles)[k])
        invariant forall k :: i <= k < |contentFiles| ==> contentFiles[k] == old(contentFiles)[k]
        invariant Valid()
      {
        contentFiles := contentFiles[i := Rendered(contentFiles[i])];
        i := i + 1;
      }
    }

    /** get_content: the first file at route, or none. */
    method GetContent(route: string) returns (r: Option<ContentFile>)
      ensures r.None? <==> forall k :: 0 <= k < |contentFiles| ==> contentFiles[k].route != route
      ensures r.Some? ==> r.value.route == route
      ensures r.Some? ==> exists k :: 0 <= k < |contentFiles| && contentFiles[k] == r.value && FirstAt(contentFiles, route, k)
    {
      var i := 0;
      while i < |contentFiles|
        invariant 0 <= i <= |contentFiles|
        invariant forall j :: 0 <= j < i ==> contentFiles[j].route != route
      {
        if contentFiles[i].route == route {
          return Some(contentFiles[i]);
        }
        i := i + 1;
      }
      return None;
    }

    /** generate_indexes: an index page for every directory holding more
        than one file, appended after the files.  The groups are built
        from the files as they were before the first page is appended. */
    method GenerateIndexes()
      requires Valid()
      modifies this
      ensures Valid()
      ensures contentFiles == old(contentFiles) + IndexPages(old(contentFiles))
    {
      var directories := GroupFiles(contentFiles);
      var keys := SortedKeys(directories.Keys);
      contentFiles := AppendPages(contentFiles, directories, keys);
    }

    /** write_output: the file to write for each page, in order, and what
        to write to it.  Creating the output directory is left to the
        caller. */
    method WriteOutput() returns (writes: seq<(string, string)>)
      ensures |writes| == |contentFiles|
      ensures forall k :: 0 <= k < |writes| ==> writes[k] == (OutputFile(outputDir, contentFiles[k].route), contentFiles[k].renderedHtml)
    {
      writes := [];
      var i := 0;
      while i < |contentFiles|
        invariant 0 <= i <= |contentFiles| && |writes| == i
        invariant forall k :: 0 <= k < i ==> writes[k] == (OutputFile(outputDir, contentFiles[k].route), contentFiles[k].renderedHtml)
      {
        var route := contentFiles[i].route;
        var outputPath := outputDir;
        if route == "/" {
          outputPath := PathJoin(outputPath, "index.html");
        } else {
          if FileUtils.StartsWith(route, "/") {
            route := route[1..];
          }
          outputPath := PathJoin(outputPath, route) + ".html";
        }
        writes := writes + [(outputPath, contentFiles[i].renderedHtml)];
        i := i + 1;
      }
    }
  }

  /** One file of scan_content: generate_route, parse_content, render_html. */
  method ScanFile(relative: string, raw: string) returns (file: ContentFile)
    ensures file == Scanned(relative, raw)
  {
    file := ContentFile(Stem(relative), FileUtils.PathToRoute(relative), Stem(relative), NewMeta,
                        Markdown.Empty(Markdown.Document), "");
    ghost var blank := file;
    ParsedFields(file, raw);
    file := ParseContent(file, raw);
    file := Rendered(file);
    assert file == Rendered(Parsed(blank, raw));
  }

  /** The first loop of generate_indexes: the files grouped by directory. */
  method GroupFiles(files: seq<ContentFile>) returns (directories: map<string, seq<ContentFile>>)
    ensures directories == Grouped(files)
  {
    directories := map[];
    var i := 0;
    while i < |files|
      invariant 0 <= i <= |files|
      invariant directories == Grouped(files[..i])
    {
      GroupedStep(files[..i], files[i]);
      assert files[..i + 1] == files[..i] + [files[i]];
      var dir := IndexDir(files[i].route);
      if dir.Some? {
        var group := if dir.value in directories then directories[dir.value] else [];
        directories := directories[dir.value := group + [files[i]]];
      }
      i := i + 1;
    }
    assert files[..i] == files;
  }

  /** The second loop of generate_indexes: an index page pushed for each
      directory of keys that holds more than one file. */
  method AppendPages(files: seq<ContentFile>, directories: map<string, seq<ContentFile>>, keys: seq<string>)
    returns (r: seq<ContentFile>)
    requires forall k :: 0 <= k < |keys| ==> keys[k] in directories
    ensures r == files + Pages(directories, keys)
  {
    r := files;
    var j := 0;
    while j < |keys|
      invariant 0 <= j <= |keys|
      invariant r == files + Pages(directories, keys[..j])
    {
      PagesSnoc(directories, keys, j);
      var group := directories[keys[j]];
      if |group| > 1 {
        var page := BuildIndexPage(keys[j], group);
        SeqAssoc(files, Pages(directories, keys[..j]), [page]);
        r := r + [page];
      } else {
        assert Pages(directories, keys[..j + 1]) == Pages(directories, keys[..j]) + [];
      }
      j := j + 1;
    }
    assert keys[..j] == keys;
  }

  /** The index page of dir, built line by line as generate_indexes writes
      it to its std::ostringstream. */
  method BuildIndexPage(dir: string, files: seq<ContentFile>) returns (page: ContentFile)
    ensures page == IndexPage(dir, files)
  {
    var title := "Index of " + dir;
    var text := "# " + title + "\n\n";
    var i := 0;
    while i < |files|
      invariant 0 <= i <= |files|
      invariant text == "# " + title + "\n\n" + Entries(files[..i])
    {
      assert files[..i + 1][..i] == files[..i];
      text := text + "- [" + files[i].meta.title + "](" + files[i].route + ")\n";
      i := i + 1;
    }
    assert files[..i] == files;
    var ast := MarkdownParser.Deserialize(text);
    MarkdownParser.DeserializedWellFormed(text);
    page := ContentFile("", dir, "index", NewMeta.(title := title), ast, Markdown.ToHtmlText(ast));
  }

  // ---------------------------------------------------------------------
  // generate_indexes as written: pointers into a growing vector

  /** std::vector growth in libstdc++: a push_back onto a full vector moves
      the elements to new storage of twice the size (1 when empty). */
  function Grown(size: nat, capacity: nat): nat {
    if size < capacity then capacity else if size == 0 then 1 else 2 * size
  }

  /** The capacity after n push_backs onto an empty vector. */
  function CapacityAfter(n: nat): nat {
    if n == 0 then 0 else Grown(n - 1, CapacityAfter(n - 1))
  }

  /** The loop of generate_indexes as written: each of pages index pages
      reads its files through pointers taken into content_files before the
      loop, then pushes the page.  One flag per page: whether the storage
      its pointers point into is still the vector's (false once a push
      has moved the elements, when the reads are undefined behaviour). */
  function PointersLive(size: nat, capacity: nat, pages: nat, moved: bool): (r: seq<bool>)
    ensures |r| == pages
    decreases pages
  {
    if pages == 0 then []
    else [!moved] + PointersLive(size + 1, Grown(size, capacity), pages - 1, moved || size == capacity)
  }

  /** The pointers of page j are live exactly when the j pushes before it
      fit in the capacity the vector had when they were taken. */
  lemma {:induction false} PointersLiveExactly(size: nat, capacity: nat, pages: nat, j: nat)
    requires size <= capacity && j < pages
    ensures PointersLive(size, capacity, pages, false)[j] <==> size + j <= capacity
    decreases pages
  {
    if j > 0 {
      if size == capacity {
        AllMoved(size + 1, Grown(size, capacity), pages - 1, j - 1);
      } else {
        PointersLiveExactly(size + 1, capacity, pages - 1, j - 1);
      }
    }
  }

  lemma {:induction false} AllMoved(size: nat, capacity: nat, pages: nat, j: nat)
    requires j < pages
    ensures !PointersLive(size, capacity, pages, true)[j]
    decreases pages
  {
    if j > 0 {
      AllMoved(size + 1, Grown(size, capacity), pages - 1, j - 1);
    }
  }

  /** Four files under two directories: scan_content leaves content_files
      full, so the first index page moves it and the second page reads
      its titles and routes through dangling pointers. */
  lemma DanglingIndexPointers()
    ensures CapacityAfter(4) == 4
    ensures PointersLive(4, CapacityAfter(4), 2, false) == [true, false]
  {
    assert CapacityAfter(1) == 1 && CapacityAfter(2) == 2 && CapacityAfter(3) == 4;
    PointersLiveExactly(4, 4, 2, 0);
    PointersLiveExactly(4, 4, 2, 1);
  }
}
