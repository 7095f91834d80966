/** The site generator of core/generator.hpp and core/generator.cpp: the
    stylesheets and layouts it loads, the stylesheet links of a page, the
    layout a page is rendered with, the template context of a page and the
    file each page is written to.

    The configuration (g_config in the source) and the template helper
    registry are fields set by the constructor; the files of the styles,
    templates and content directories are parameters, and the files a run
    writes are its result. */
module Generator {
  import opened Wrappers
  import opened StdMap
  import StdString
  import FileUtils
  import Config
  import Template
  import Content
  import Markdown

  /** StyleSheet: load_styles fills in the name only. */
  datatype StyleSheet = StyleSheet(name: string, content: string)

  /** Layout: a template file and the stylesheets the configuration lists
      for it. */
  datatype Layout = Layout(name: string, templateHtml: string, requiredStyles: seq<string>)

  // ---------------------------------------------------------------------
  // load_styles and load_layouts

  /** The stylesheets load_styles keeps: one per .css file whose copy into
      the output directory did not fail (files[k].1), under the stem of its
      name (files[k].0); a later file of the same stem replaces an earlier
      one. */
  function SheetsOf(files: seq<(string, bool)>): (r: map<string, StyleSheet>)
    ensures forall n :: n in r ==> r[n] == StyleSheet(n, "")
    ensures forall n :: n in r <==> exists k :: 0 <= k < |files| && files[k].0 == n && files[k].1
  {
    if files == [] then map[]
    else
      var init := SheetsOf(files[..|files| - 1]);
      var (stem, copied) := files[|files| - 1];
      assert forall k :: 0 <= k < |files| - 1 ==> files[..|files| - 1][k] == files[k];
      if copied then init[stem := StyleSheet(stem, "")] else init
  }

  /** The styles the configuration's layout_styles table lists for a
      layout, none when it has no entry. */
  function StylesFor(layoutStyles: map<string, seq<string>>, name: string): seq<string> {
    if name in layoutStyles then layoutStyles[name] else []
  }

  /** The layouts load_layouts keeps: one per .html file that could be read
      (templates[k].1 holds its text), under the stem of its name, with the
      required styles the configuration gives that name; a later file of
      the same stem replaces an earlier one. */
  function LayoutsOf(templates: seq<(string, Option<string>)>, layoutStyles: map<string, seq<string>>): (r: map<string, Layout>)
  {
    if templates == [] then map[]
    else
      var init := LayoutsOf(templates[..|templates| - 1], layoutStyles);
      var (stem, text) := templates[|templates| - 1];
      if text.Some? then init[stem := Layout(stem, text.value, StylesFor(layoutStyles, stem))] else init
  }

  /** Each layout kept is named by its stem, has the styles the
      configuration gives that name and the text of a file of that stem;
      every readable file gives a layout. */
  lemma {:induction false} LayoutsOfKeys(templates: seq<(string, Option<string>)>, layoutStyles: map<string, seq<string>>)
    ensures var r := LayoutsOf(templates, layoutStyles);
      forall n :: n in r ==> r[n].name == n && r[n].requiredStyles == StylesFor(layoutStyles, n)
    ensures var r := LayoutsOf(templates, layoutStyles);
      forall n :: n in r ==> exists k :: 0 <= k < |templates| && templates[k] == (n, Some(r[n].templateHtml))
    ensures var r := LayoutsOf(templates, layoutStyles);
      forall k :: 0 <= k < |templates| && templates[k].1.Some? ==> templates[k].0 in r
    decreases |templates|
  {
    if templates != [] {
      var last := |templates| - 1;
      var init := templates[..last];
      var before := LayoutsOf(init, layoutStyles);
      var r := LayoutsOf(templates, layoutStyles);
      LayoutsOfKeys(init, layoutStyles);
      assert forall k :: 0 <= k < |init| ==> init[k] == templates[k];
      forall n | n in r
        ensures exists k :: 0 <= k < |templates| && templates[k] == (n, Some(r[n].templateHtml))
      {
        if templates[last].1.Some? && n == templates[last].0 {
          assert templates[last] == (n, Some(r[n].templateHtml));
        } else {
          var k :| 0 <= k < |init| && init[k] == (n, Some(before[n].templateHtml));
          assert templates[k] == (n, Some(r[n].templateHtml));
        }
      }
    }
  }

  /** The last readable template of a stem is the one kept. */
  lemma {:induction false} LayoutsOfLast(templates: seq<(string, Option<string>)>, layoutStyles: map<string, seq<string>>, k: nat)
    requires k < |templates| && templates[k].1.Some?
    requires forall j :: k < j < |templates| && templates[j].0 == templates[k].0 ==> templates[j].1.None?
    ensures templates[k].0 in LayoutsOf(templates, layoutStyles)
    ensures LayoutsOf(templates, layoutStyles)[templates[k].0].templateHtml == templates[k].1.value
    decreases |templates|
  {
    var init := templates[..|templates| - 1];
    if k < |templates| - 1 {
      assert forall j :: k < j < |init| ==> init[j] == templates[j];
      LayoutsOfLast(init, layoutStyles, k);
      assert init[k] == templates[k];
    }
  }

  // ---------------------------------------------------------------------
  // collect_styles

  const LINK_PREFIX := "<link rel=\"stylesheet\" href=\"/styles/"
  const LINK_SUFFIX := ".css\">"

  /** What collect_styles puts between two links. */
  const LINK_SEPARATOR := "\n    "

  /** The link tag of the stylesheet name. */
  function Link(name: string): string {
    LINK_PREFIX + name + LINK_SUFFIX
  }

  /** The name can be read back from its link, so different names give
      different links. */
  lemma LinkName(name: string)
    ensures |Link(name)| == |LINK_PREFIX| + |name| + |LINK_SUFFIX|
    ensures Link(name)[|LINK_PREFIX|..|Link(name)| - |LINK_SUFFIX|] == name
  {
  }

  /** The names that are known stylesheets, in their order, duplicates
      included. */
  function Kept(names: seq<string>, known: set<string>): (r: seq<string>)
    ensures |r| <= |names|
    ensures forall x :: x in r <==> x in names && x in known
  {
    if names == [] then []
    else
      var init := Kept(names[..|names| - 1], known);
      var last := names[|names| - 1];
      assert forall x :: x in names <==> x in names[..|names| - 1] || x == last;
      if last in known then init + [last] else init
  }

  /** Filtering distributes over concatenation: it keeps the order of the
      names. */
  lemma {:induction false} KeptAppend(a: seq<string>, b: seq<string>, known: set<string>)
    ensures Kept(a + b, known) == Kept(a, known) + Kept(b, known)
    decreases |b|
  {
    if b == [] {
      assert a + b == a;
    } else {
      var init := b[..|b| - 1];
      assert (a + b)[..|a + b| - 1] == a + init;
      KeptAppend(a, init, known);
    }
  }

  /** When every name is a known stylesheet nothing is dropped. */
  lemma {:induction false} KeptAll(names: seq<string>, known: set<string>)
    requires forall k :: 0 <= k < |names| ==> names[k] in known
    ensures Kept(names, known) == names
    decreases |names|
  {
    if names != [] {
      KeptAll(names[..|names| - 1], known);
      assert names[..|names| - 1] + [names[|names| - 1]] == names;
    }
  }

  /** The links of the names, in order. */
  function Links(names: seq<string>): (r: seq<string>)
    ensures |r| == |names|
    ensures forall k :: 0 <= k < |r| ==> r[k] == Link(names[k])
  {
    seq(|names|, k requires 0 <= k < |names| => Link(names[k]))
  }

  /** The link tags collect_styles collects: the configured global styles,
      then the layout's required styles, then the page's classes, each kept
      only when a stylesheet of that name was loaded. */
  function LinkTags(globals: seq<string>, required: seq<string>, classes: seq<string>, known: set<string>): seq<string> {
    Links(Kept(globals, known)) + Links(Kept(required, known)) + Links(Kept(classes, known))
  }

  /** The text collect_styles returns: the link tags joined by
      LINK_SEPARATOR. */
  function Styles(globals: seq<string>, required: seq<string>, classes: seq<string>, known: set<string>): string {
    FileUtils.JoinSpec(LinkTags(globals, required, classes, known), LINK_SEPARATOR)
  }

  /** The links of a concatenation are the links of its parts. */
  lemma LinksAppend(a: seq<string>, b: seq<string>)
    ensures Links(a + b) == Links(a) + Links(b)
  {
  }

  /** A join of links is empty exactly when there are no links. */
  lemma JoinedLinksEmpty(names: seq<string>)
    ensures FileUtils.JoinSpec(Links(names), LINK_SEPARATOR) == "" <==> names == []
  {
    var tags := Links(names);
    if |tags| == 1 {
      assert FileUtils.JoinSpec(tags, LINK_SEPARATOR) == Link(names[0]);
    } else if |tags| > 1 {
      var whole := FileUtils.JoinSpec(tags, LINK_SEPARATOR);
      assert whole == FileUtils.JoinSpec(tags[..|tags| - 1], LINK_SEPARATOR) + LINK_SEPARATOR + tags[|tags| - 1];
      assert |whole| >= |LINK_SEPARATOR|;
    }
  }

  /** The styles are empty exactly when no listed name is a known
      stylesheet. */
  lemma StylesEmpty(globals: seq<string>, required: seq<string>, classes: seq<string>, known: set<string>)
    ensures Styles(globals, required, classes, known) == "" <==> forall x :: x in globals + required + classes ==> x !in known
  {
    var all := globals + required + classes;
    KeptAppend(globals, required, known);
    KeptAppend(globals + required, classes, known);
    LinksAppend(Kept(globals, known), Kept(required, known));
    LinksAppend(Kept(globals, known) + Kept(required, known), Kept(classes, known));
    assert LinkTags(globals, required, classes, known) == Links(Kept(all, known));
    JoinedLinksEmpty(Kept(all, known));
    if Kept(all, known) != [] {
      assert Kept(all, known)[0] in all && Kept(all, known)[0] in known;
    }
  }

  /** Joining two non-empty lists puts one separator between the joins. */
  lemma {:induction false} JoinAppend(a: seq<string>, b: seq<string>, sep: string)
    requires a != [] && b != []
    ensures FileUtils.JoinSpec(a + b, sep) == FileUtils.JoinSpec(a, sep) + sep + FileUtils.JoinSpec(b, sep)
    decreases |b|
  {
    var last := b[|b| - 1];
    var init := b[..|b| - 1];
    assert a + b == (a + init) + [last];
    if init == [] {
      FileUtils.JoinSnoc(a, last, sep);
      assert b == [last];
    } else {
      JoinAppend(a, init, sep);
      FileUtils.JoinSnoc(a + init, last, sep);
      FileUtils.JoinSnoc(init, last, sep);
      assert b == init + [last];
    }
  }

  /** When every group has a known stylesheet, the styles are the global
      links, a separator, the layout's links, a separator and the class
      links. */
  lemma StylesInOrder(globals: seq<string>, required: seq<string>, classes: seq<string>, known: set<string>)
    requires Kept(globals, known) != [] && Kept(required, known) != [] && Kept(classes, known) != []
    ensures Styles(globals, required, classes, known) ==
      FileUtils.JoinSpec(Links(Kept(globals, known)), LINK_SEPARATOR) + LINK_SEPARATOR +
      FileUtils.JoinSpec(Links(Kept(required, known)), LINK_SEPARATOR) + LINK_SEPARATOR +
      FileUtils.JoinSpec(Links(Kept(classes, known)), LINK_SEPARATOR)
  {
    var g := Links(Kept(globals, known));
    var r := Links(Kept(required, known));
    var c := Links(Kept(classes, known));
    JoinAppend(g + r, c, LINK_SEPARATOR);
    JoinAppend(g, r, LINK_SEPARATOR);
  }

  /** When every listed name is a known stylesheet, there is one link per
      name, in the order globals, required styles, classes. */
  lemma StylesAllKnown(globals: seq<string>, required: seq<string>, classes: seq<string>, known: set<string>)
    requires forall k :: 0 <= k < |globals| ==> globals[k] in known
    requires forall k :: 0 <= k < |required| ==> required[k] in known
    requires forall k :: 0 <= k < |classes| ==> classes[k] in known
    ensures Styles(globals, required, classes, known) == FileUtils.JoinSpec(Links(globals + required + classes), LINK_SEPARATOR)
  {
    KeptAll(globals, known);
    KeptAll(required, known);
    KeptAll(classes, known);
    LinksAppend(globals, required);
    LinksAppend(globals + required, classes);
  }

  /** One of the three loops of collect_styles: the link of every known
      name, appended in order. */
  method PushLinks(tags: seq<string>, names: seq<string>, known: set<string>) returns (out: seq<string>)
    ensures out == tags + Links(Kept(names, known))
  {
    out := tags;
    var i := 0;
    while i < |names|
      invariant 0 <= i <= |names|
      invariant out == tags + Links(Kept(names[..i], known))
    {
      assert names[..i + 1][..i] == names[..i];
      if names[i] in known {
        LinksAppend(Kept(names[..i], known), [names[i]]);
        StdString.SeqAssoc(tags, Links(Kept(names[..i], known)), [Link(names[i])]);
        out := out + [Link(names[i])];
      }
      i := i + 1;
    }
    assert names[..i] == names;
  }

  /** The join at the end of collect_styles: a separator before every link
      but when the text so far is empty. */
  method JoinLinks(tags: seq<string>, ghost names: seq<string>) returns (styles: string)
    requires tags == Links(names)
    ensures styles == FileUtils.JoinSpec(tags, LINK_SEPARATOR)
  {
    styles := "";
    var i := 0;
    while i < |tags|
      invariant 0 <= i <= |tags|
      invariant styles == FileUtils.JoinSpec(tags[..i], LINK_SEPARATOR)
      invariant i > 0 ==> styles != ""
    {
      assert tags[..i + 1] == tags[..i] + [tags[i]];
      if styles != "" {
        FileUtils.JoinSnoc(tags[..i], tags[i], LINK_SEPARATOR);
        styles := styles + LINK_SEPARATOR;
      } else {
        assert tags[..i] == [];
      }
      styles := styles + tags[i];
      assert tags[i] == Link(names[i]);
      i := i + 1;
    }
    assert tags[..i] == tags;
  }

  // ---------------------------------------------------------------------
  // generate_page: the layout

  /** The template generate_page falls back to when there is no "default"
      layout. */
  const BUILTIN_TEMPLATE :=
    "<!DOCTYPE html>\n<html><head><title>{{title}}</title><style>{{styles}}</style></head>\n<body>{{content}}</body></html>"

  /** The template and the required styles a page is rendered with. */
  datatype Choice = Choice(templateHtml: string, requiredStyles: seq<string>)

  /** The layout of the name when there is one; else the template of the
      "default" layout without its required styles; else the built-in
      template. */
  function Chosen(layouts: map<string, Layout>, name: string): (c: Choice)
    ensures name in layouts ==> c == Choice(layouts[name].templateHtml, layouts[name].requiredStyles)
    ensures name !in layouts ==> c.requiredStyles == []
  {
    if name in layouts then Choice(layouts[name].templateHtml, layouts[name].requiredStyles)
    else if Content.DEFAULT_LAYOUT in layouts then Choice(layouts[Content.DEFAULT_LAYOUT].templateHtml, [])
    else Choice(BUILTIN_TEMPLATE, [])
  }

  /** A page whose layout does not exist gets the template a page of the
      "default" layout gets, but not the styles that layout requires. */
  lemma ChosenFallback(layouts: map<string, Layout>, name: string)
    requires name !in layouts
    ensures Chosen(layouts, name).templateHtml == Chosen(layouts, Content.DEFAULT_LAYOUT).templateHtml
    ensures Chosen(layouts, name).requiredStyles == []
    ensures Content.DEFAULT_LAYOUT in layouts ==>
      Chosen(layouts, Content.DEFAULT_LAYOUT).requiredStyles == layouts[Content.DEFAULT_LAYOUT].requiredStyles
  {
  }

  /** With no layouts loaded every page gets the built-in template. */
  lemma ChosenBuiltin(name: string)
    ensures Chosen(map[], name) == Choice(BUILTIN_TEMPLATE, [])
  {
  }

  /** A template always comes from the named layout, the "default" layout
      or the built-in text, and required styles only from the named one. */
  lemma ChosenSource(layouts: map<string, Layout>, name: string)
    ensures var c := Chosen(layouts, name);
      (name in layouts && c.templateHtml == layouts[name].templateHtml) ||
      (Content.DEFAULT_LAYOUT in layouts && c.templateHtml == layouts[Content.DEFAULT_LAYOUT].templateHtml) ||
      c.templateHtml == BUILTIN_TEMPLATE
    ensures Chosen(layouts, name).requiredStyles != [] ==> name in layouts
  {
  }

  // ---------------------------------------------------------------------
  // apply_template: the context

  /** The keys apply_template always sets. */
  const BUILTIN_KEYS: set<string> := {"title", "content", "styles", "site_name", "base_url", "site_description",
    "site_author", "site_language", "date", "content_classes", "tags", "tags_string"}

  /** The values apply_template sets before the custom fields. */
  function Builtins(file: Content.ContentFile, styles: string, site: Config.SiteConfig): map<string, Template.Value> {
    map[
      "title" := Template.Str(file.meta.title),
      "content" := Template.Str(file.renderedHtml),
      "styles" := Template.Str(styles),
      "site_name" := Template.Str(site.name),
      "base_url" := Template.Str(site.baseUrl),
      "site_description" := Template.Str(site.description),
      "site_author" := Template.Str(site.author),
      "site_language" := Template.Str(site.language),
      "date" := Template.Str(file.meta.date),
      "content_classes" := Template.Str(FileUtils.JoinSpec(file.meta.classes, " ")),
      "tags" := Template.FromStrings(file.meta.tags),
      "tags_string" := Template.Str(FileUtils.JoinSpec(file.meta.tags, ", "))]
  }

  /** The context a page is rendered in: the built-in values, overridden
      by the page's custom front-matter fields. */
  function Context(file: Content.ContentFile, styles: string, site: Config.SiteConfig): map<string, Template.Value> {
    Builtins(file, styles, site) + Template.FromStringMap(file.meta.customFields).fields
  }

  /** The context holds the built-in keys and the custom fields; a custom
      field wins over a built-in value of its name, and every other key
      keeps its built-in value. */
  lemma ContextOverrides(file: Content.ContentFile, styles: string, site: Config.SiteConfig, key: string)
    ensures Context(file, styles, site).Keys == BUILTIN_KEYS + file.meta.customFields.Keys
    ensures key in file.meta.customFields ==> Context(file, styles, site)[key] == Template.Str(file.meta.customFields[key])
    ensures key !in file.meta.customFields && key in BUILTIN_KEYS ==>
      Context(file, styles, site)[key] == Builtins(file, styles, site)[key]
  {
  }

  /** Without custom fields the page's title, text, styles, classes and
      tags are what the context holds. */
  lemma ContextPlain(file: Content.ContentFile, styles: string, site: Config.SiteConfig)
    requires file.meta.customFields == map[]
    ensures var ctx := Context(file, styles, site);
      ctx["title"] == Template.Str(file.meta.title) &&
      ctx["content"] == Template.Str(file.renderedHtml) &&
      ctx["styles"] == Template.Str(styles) &&
      ctx["content_classes"] == Template.Str(FileUtils.JoinSpec(file.meta.classes, " ")) &&
      ctx["tags"] == Template.FromStrings(file.meta.tags)
  {
    assert Template.FromStringMap(file.meta.customFields).fields == map[];
  }

  /** The custom fields of the keys ks as template values. */
  function Fields(custom: map<string, string>, ks: seq<string>): (r: map<string, Template.Value>)
    requires forall k :: k in ks ==> k in custom
    ensures r.Keys == set k | k in ks
    ensures forall k :: k in r ==> r[k] == Template.Str(custom[k])
  {
    if ks == [] then map[]
    else Fields(custom, ks[..|ks| - 1])[ks[|ks| - 1] := Template.Str(custom[ks[|ks| - 1]])]
  }

  /** Setting one more field after the union is the union with one more
      field. */
  lemma UnionUpdate(context: map<string, Template.Value>, fields: map<string, Template.Value>, k: string, v: Template.Value)
    ensures (context + fields)[k := v] == context + fields[k := v]
  {
  }

  /** The last loop of apply_template: each custom field, in key order,
      set in the context over whatever value it held. */
  method Override(context: map<string, Template.Value>, custom: map<string, string>)
    returns (r: map<string, Template.Value>)
    ensures r == context + Template.FromStringMap(custom).fields
  {
    var keys := SortedKeys(custom.Keys);
    r := OverrideKeys(context, custom, keys);
  }

  /** The loop of Override over the keys of the custom fields. */
  method OverrideKeys(context: map<string, Template.Value>, custom: map<string, string>, keys: seq<string>)
    returns (r: map<string, Template.Value>)
    requires forall k :: k in keys <==> k in custom
    ensures r == context + Template.FromStringMap(custom).fields
  {
    r := context;
    var i := 0;
    while i < |keys|
      invariant 0 <= i <= |keys|
      invariant r == context + Fields(custom, keys[..i])
    {
      assert keys[..i + 1][..i] == keys[..i];
      UnionUpdate(context, Fields(custom, keys[..i]), keys[i], Template.Str(custom[keys[i]]));
      r := r[keys[i] := Template.Str(custom[keys[i]])];
      i := i + 1;
    }
    assert keys[..i] == keys;
    FieldsAll(custom, keys);
  }

  /** Over all the keys, the fields are the whole map as template values. */
  lemma FieldsAll(custom: map<string, string>, keys: seq<string>)
    requires forall k :: k in keys <==> k in custom
    ensures Fields(custom, keys) == Template.FromStringMap(custom).fields
  {
    var f := Fields(custom, keys);
    var g := Template.FromStringMap(custom).fields;
    assert f.Keys == g.Keys;
  }

  /** The text of a page: its template rendered in its context, with the
      styles of the chosen layout and of the page's classes. */
  function Page(layouts: map<string, Layout>, known: set<string>, settings: Config.Settings,
                helpers: map<string, Template.Helper>, file: Content.ContentFile, layoutName: string): string {
    var c := Chosen(layouts, layoutName);
    var styles := Styles(settings.build.globalStyles, c.requiredStyles, file.meta.classes, known);
    Template.Render(c.templateHtml, Context(file, styles, settings.site), Template.Registry(helpers)).text
  }

  // ---------------------------------------------------------------------
  // generate: the output path

  /** The file generate writes a page to: index.html for the root route;
      for a page whose source is an index file, index.html in the
      directory of its route; otherwise its route plus ".html".  The route
      loses one leading '/' first. */
  function PagePath(outputDir: string, route: string, stem: string): string {
    if route == "/" then Content.PathJoin(outputDir, "index.html")
    else
      var relative := if FileUtils.StartsWith(route, "/") then route[1..] else route;
      if stem == "index" then Content.PathJoin(Content.PathJoin(outputDir, relative), "index.html")
      else Content.PathJoin(outputDir, relative) + ".html"
  }

  /** For a page that is not an index file, generate writes where
      write_output does. */
  lemma PagePathPlain(outputDir: string, route: string, stem: string)
    requires stem != "index"
    ensures PagePath(outputDir, route, stem) == Content.OutputFile(outputDir, route)
  {
  }

  /** An index file below the root is written to index.html in the
      directory named by its route. */
  lemma PagePathIndex(outputDir: string, route: string)
    requires |route| >= 2 && route[0] == '/' && route[1] != '/' && route[|route| - 1] != '/'
    ensures PagePath(outputDir, route, "index") == outputDir + Content.Sep(outputDir) + route[1..] + "/index.html"
  {
    assert FileUtils.StartsWith(route, "/") by { assert route[..1] == "/"; }
    var relative := route[1..];
    var dir := Content.PathJoin(outputDir, relative);
    assert dir == outputDir + Content.Sep(outputDir) + relative;
    JoinIndex(dir, relative);
  }

  /** index.html joined to a directory that does not end in '/'. */
  lemma JoinIndex(dir: string, relative: string)
    requires relative != [] && relative[|relative| - 1] != '/'
    requires |dir| >= |relative| && dir[|dir| - |relative|..] == relative
    ensures Content.PathJoin(dir, "index.html") == dir + "/index.html"
  {
    assert dir[|dir| - 1] == relative[|relative| - 1];
  }

  /** An index file and a page of the same route are written to different
      files. */
  lemma PagePathApart(outputDir: string, route: string, stem: string)
    requires |route| >= 2 && route[0] == '/' && route[1] != '/' && route[|route| - 1] != '/'
    requires stem != "index"
    ensures PagePath(outputDir, route, "index") != PagePath(outputDir, route, stem)
  {
    PagePathIndex(outputDir, route);
    PagePathPlain(outputDir, route, stem);
    Content.OutputFilePage(outputDir, route);
  }

  /** The files of a run: those the scan finds, rendered, then the index
      pages of their directories. */
  function Site(sources: seq<(string, string)>): (r: seq<Content.ContentFile>)
    ensures |r| >= |sources|
  {
    var scanned := Content.ScannedAll(sources);
    scanned + Content.IndexPages(scanned)
  }

  /** The writes of generate: for each file in order, the path it is
      written to and its page rendered with the layout its meta names. */
  function Outputs(layouts: map<string, Layout>, known: set<string>, settings: Config.Settings,
                   helpers: map<string, Template.Helper>, outputDir: string, files: seq<Content.ContentFile>): (r: seq<(string, string)>)
    ensures |r| == |files|
  {
    if files == [] then []
    else
      var f := files[|files| - 1];
      Outputs(layouts, known, settings, helpers, outputDir, files[..|files| - 1]) +
        [(PagePath(outputDir, f.route, f.sourceStem), Page(layouts, known, settings, helpers, f, f.meta.layout))]
  }

  /** One more file adds its write at the end. */
  lemma OutputsSnoc(layouts: map<string, Layout>, known: set<string>, settings: Config.Settings,
                    helpers: map<string, Template.Helper>, outputDir: string, files: seq<Content.ContentFile>, f: Content.ContentFile)
    ensures Outputs(layouts, known, settings, helpers, outputDir, files + [f]) ==
      Outputs(layouts, known, settings, helpers, outputDir, files) +
        [(PagePath(outputDir, f.route, f.sourceStem), Page(layouts, known, settings, helpers, f, f.meta.layout))]
  {
    assert (files + [f])[..|files|] == files;
  }

  /** Write k is file k's page, at file k's path. */
  lemma {:induction false} OutputsAt(layouts: map<string, Layout>, known: set<string>, settings: Config.Settings,
                                     helpers: map<string, Template.Helper>, outputDir: string, files: seq<Content.ContentFile>, k: nat)
    requires k < |files|
    ensures Outputs(layouts, known, settings, helpers, outputDir, files)[k] ==
      (PagePath(outputDir, files[k].route, files[k].sourceStem), Page(layouts, known, settings, helpers, files[k], files[k].meta.layout))
    decreases |files|
  {
    if k < |files| - 1 {
      OutputsAt(layouts, known, settings, helpers, outputDir, files[..|files| - 1], k);
    }
  }

  /** Rendering files that a scan has rendered already changes nothing. */
  lemma RenderedAgain(scanned: seq<Content.ContentFile>, processed: seq<Content.ContentFile>)
    requires forall k :: 0 <= k < |scanned| ==>
      Markdown.WellFormed(scanned[k].ast) && scanned[k].renderedHtml == Markdown.ToHtmlText(scanned[k].ast)
    requires |processed| == |scanned|
    requires forall k :: 0 <= k < |processed| ==> processed[k] == Content.Rendered(scanned[k])
    ensures processed == scanned
  {
  }

  // ---------------------------------------------------------------------
  // SiteGenerator

  class SiteGenerator {
    /** The configuration the generator reads (g_config). */
    const settings: Config.Settings
    /** The custom helpers in the template engine's registry, a static of
        TemplateEngine that any code may fill before generate runs;
        generate itself registers none, and an empty registry renders with
        the default helpers. */
    const helpers: map<string, Template.Helper>
    const outputDir: string
    const manager: Content.Manager
    var stylesheets: map<string, StyleSheet>
    var layouts: map<string, Layout>

    /** The content manager works in the content and output directories
        the configuration resolves. */
    constructor(settings: Config.Settings, helpers: map<string, Template.Helper>, contentPath: string, outputPath: string)
      ensures this.settings == settings && this.helpers == helpers && outputDir == outputPath
      ensures fresh(manager) && manager.contentDir == contentPath && manager.outputDir == outputPath
      ensures manager.contentFiles == []
      ensures stylesheets == map[] && layouts == map[]
    {
      this.settings := settings;
      this.helpers := helpers;
      outputDir := outputPath;
      manager := new Content.Manager(contentPath, outputPath);
      stylesheets := map[];
      layouts := map[];
    }

    /** load_styles.  files is None when the styles directory does not
        exist; otherwise each .css file below it, as the stem of its name
        and whether its copy into the output directory succeeded. */
    method LoadStyles(files: Option<seq<(string, bool)>>)
      modifies this
      ensures layouts == old(layouts)
      ensures files.None? ==> stylesheets == map[]
      ensures files.Some? ==> stylesheets == SheetsOf(files.value)
    {
      stylesheets := map[];
      if files.None? {
        return;
      }
      var css := files.value;
      var i := 0;
      while i < |css|
        invariant 0 <= i <= |css|
        invariant stylesheets == SheetsOf(css[..i])
        invariant layouts == old(layouts)
      {
        assert css[..i + 1][..i] == css[..i];
        if css[i].1 {
          stylesheets := stylesheets[css[i].0 := StyleSheet(css[i].0, "")];
        }
        i := i + 1;
      }
      assert css[..i] == css;
    }

    /** load_layouts.  templates is None when the templates directory does
        not exist; otherwise each .html file below it, as the stem of its
        name and its text, none when it cannot be read. */
    method LoadLayouts(templates: Option<seq<(string, Option<string>)>>)
      modifies this
      ensures stylesheets == old(stylesheets)
      ensures templates.None? ==> layouts == map[]
      ensures templates.Some? ==> layouts == LayoutsOf(templates.value, settings.build.layoutStyles)
    {
      layouts := map[];
      if templates.None? {
        return;
      }
      var files := templates.value;
      var i := 0;
      while i < |files|
        invariant 0 <= i <= |files|
        invariant layouts == LayoutsOf(files[..i], settings.build.layoutStyles)
        invariant stylesheets == old(stylesheets)
      {
        assert files[..i + 1][..i] == files[..i];
        var (stem, text) := files[i];
        if text.Some? {
          var required: seq<string> := [];
          if stem in settings.build.layoutStyles {
            required := settings.build.layoutStyles[stem];
          }
          assert required == StylesFor(settings.build.layoutStyles, stem);
          layouts := layouts[stem := Layout(stem, text.value, required)];
        }
        i := i + 1;
      }
      assert files[..i] == files;
    }

    /** collect_styles. */
    method CollectStyles(required: seq<string>, classes: seq<string>) returns (styles: string)
      ensures styles == Styles(settings.build.globalStyles, required, classes, stylesheets.Keys)
    {
      var known := stylesheets.Keys;
      var tags := PushLinks([], settings.build.globalStyles, known);
      tags := PushLinks(tags, required, known);
      tags := PushLinks(tags, classes, known);
      ghost var names := Kept(settings.build.globalStyles, known) + Kept(required, known) + Kept(classes, known);
      LinksAppend(Kept(settings.build.globalStyles, known), Kept(required, known));
      LinksAppend(Kept(settings.build.globalStyles, known) + Kept(required, known), Kept(classes, known));
      styles := JoinLinks(tags, names);
    }

    /** apply_template: the context is filled key by key, the custom fields
        last in key order, and the template rendered in it. */
    method ApplyTemplate(templateHtml: string, content: Content.ContentFile, styles: string) returns (html: string)
      ensures html == Template.Render(templateHtml, Context(content, styles, settings.site), Template.Registry(helpers)).text
    {
      var site := settings.site;
      var context: map<string, Template.Value> := map[];
      context := context["title" := Template.Str(content.meta.title)];
      context := context["content" := Template.Str(content.renderedHtml)];
      context := context["styles" := Template.Str(styles)];
      context := context["site_name" := Template.Str(site.name)];
      context := context["base_url" := Template.Str(site.baseUrl)];
      context := context["site_description" := Template.Str(site.description)];
      context := context["site_author" := Template.Str(site.author)];
      context := context["site_language" := Template.Str(site.language)];
      context := context["date" := Template.Str(content.meta.date)];
      var classes := FileUtils.Join(content.meta.classes, " ");
      context := context["content_classes" := Template.Str(classes)];
      context := context["tags" := Template.FromStrings(content.meta.tags)];
      var tags := FileUtils.Join(content.meta.tags, ", ");
      context := context["tags_string" := Template.Str(tags)];
      ghost var builtins := context;
      assert builtins == Builtins(content, styles, site);
      context := Override(context, content.meta.customFields);
      html := Template.RenderTemplate(templateHtml, context, helpers);
    }

    /** generate_page. */
    method GeneratePage(content: Content.ContentFile, layoutName: string) returns (html: string)
      ensures html == Page(layouts, stylesheets.Keys, settings, helpers, content, layoutName)
    {
      var templateHtml: string;
      var required: seq<string> := [];
      if layoutName in layouts {
        templateHtml := layouts[layoutName].templateHtml;
        required := layouts[layoutName].requiredStyles;
      } else if Content.DEFAULT_LAYOUT in layouts {
        templateHtml := layouts[Content.DEFAULT_LAYOUT].templateHtml;
      } else {
        templateHtml := BUILTIN_TEMPLATE;
      }
      var styles := CollectStyles(required, content.meta.classes);
      html := ApplyTemplate(templateHtml, content, styles);
    }

    /** generate: scan, render and index the content, then write every
        file with its layout.  The result lists the writes in order, each
        as the file's path and its text. */
    method Generate(sources: seq<(string, string)>) returns (writes: seq<(string, string)>)
      modifies manager
      ensures manager.Valid() && manager.contentFiles == Site(sources)
      ensures writes == Outputs(layouts, stylesheets.Keys, settings, helpers, outputDir, manager.contentFiles)
    {
      manager.ScanContent(sources);
      ghost var scanned := manager.contentFiles;
      manager.ProcessAll();
      RenderedAgain(scanned, manager.contentFiles);
      manager.GenerateIndexes();
      writes := WritePages(manager.contentFiles);
    }

    /** The write loop of generate over the files. */
    method WritePages(all: seq<Content.ContentFile>) returns (writes: seq<(string, string)>)
      ensures writes == Outputs(layouts, stylesheets.Keys, settings, helpers, outputDir, all)
    {
      writes := [];
      var i := 0;
      while i < |all|
        invariant 0 <= i <= |all|
        invariant writes == Outputs(layouts, stylesheets.Keys, settings, helpers, outputDir, all[..i])
      {
        var html := GeneratePage(all[i], all[i].meta.layout);
        var path := OutputPath(all[i].route, all[i].sourceStem);
        StdString.TakeSnoc(all, i);
        OutputsSnoc(layouts, stylesheets.Keys, settings, helpers, outputDir, all[..i], all[i]);
        writes := writes + [(path, html)];
        i := i + 1;
      }
      assert all[..i] == all;
    }

    /** The output-path branches inside generate. */
    method OutputPath(route: string, stem: string) returns (path: string)
      ensures path == PagePath(outputDir, route, stem)
    {
      if route == "/" {
        path := Content.PathJoin(outputDir, "index.html");
      } else {
        var relative := route;
        if FileUtils.StartsWith(relative, "/") {
          relative := relative[1..];
        }
        if stem == "index" {
          path := Content.PathJoin(outputDir, relative);
          path := Content.PathJoin(path, "index.html");
        } else {
          path := Content.PathJoin(outputDir, relative);
          path := path + ".html";
        }
      }
    }
  }
}
