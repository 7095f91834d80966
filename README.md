# chisel, modelled in Dafny

A model of the core of chisel, a static-site generator written in C++. It
covers the text-processing engine and the pure decision logic around it:

- the tag-tree (HTML) codec: entity escaping, the pretty-printing serializer
  and the strict recursive-descent parser (`Html`);
- the markdown engine: the document tree, the line-based block parser, the
  inline tokenizer, the markdown serializer and the conversion into the tag
  tree (`Markdown`, `MarkdownParser`, `MarkdownRoundTrip`);
- the JSON and TOML value codecs (`Json`, `JsonRoundTrip`, `Toml`);
- the template mini-language (`Template`);
- the string, route and front-matter utilities (`FileUtils`);
- configuration validation and loading, the command-line parser, the pure
  parts of the HTTP server and its size-bounded cache, and the site-assembly
  rules of the generator and the content manager (`Config`, `Cli`, `HttpRequest`,
  `HttpResponse`, `HttpServer`, `Generator`, `Content`).

Helper modules: `Wrappers` (`Option`, and `Result` whose `Err` carries the
message of the C++ exception), `Chars` (`<cctype>` in the "C" locale),
`StdString` (`find`, `substr`, `std::to_string`, the `strtol` family) and
`StdMap` (the ascending key order of `std::map<std::string, _>`).

Every imperative function of the source is a method whose `ensures` ties its
result (or its new state) to a specification function; the properties the
source promises are proved about those functions as lemmas. Recursive-descent
parsers keep their cursor: `Json.Parser`, `Toml.Parser` and
`Template.Parser` are classes with a `pos` field, and `Html.ParseNode` and
`MarkdownParser.ParseBlock` take and return the position.

Each `std::regex` of the markdown parser is restated as an explicit scanner
that follows libstdc++'s ECMAScript semantics (`.` matches neither `\n` nor
`\r`, `\s` is `std::isspace`).

## Model

| member | source | states |
|---|---|---|
| `FileUtils.StartsWith` | utils/file_utils.hpp:12-14 | true exactly when p is a prefix of s; the empty prefix is accepted and a longer prefix rejected |
| `FileUtils.EndsWith` | utils/file_utils.hpp:16-18 | true exactly when x is a suffix of s, comparing char by char from the end |
| `FileUtils.Trim` | utils/file_utils.cpp:78-85 | the result neither starts nor ends with space, tab, CR or LF; an all-white-space input gives "" |
| `FileUtils.StripBounds` | utils/file_utils.cpp:78-85 | trim keeps one slice of the input with only white space cut off either end |
| `FileUtils.TrimIdempotent` | utils/file_utils.cpp:78-85 | trimming twice is trimming once |
| `FileUtils.TrimUnchanged` | utils/file_utils.cpp:78-85 | a string that neither starts nor ends with white space is its own trim |
| `FileUtils.Split` | utils/file_utils.cpp:87-97 | the tokens are the getline pieces of the input, each trimmed; an empty input gives no token |
| `FileUtils.TrailingDelimiter` | utils/file_utils.cpp:87-97 | getline yields no empty last piece for a trailing delimiter: appending the delimiter adds an empty piece exactly when the text is empty or already ends with the delimiter, and otherwise leaves the pieces as they were |
| `FileUtils.JoinPieces` | utils/file_utils.cpp:87-111 | joining the getline pieces with the delimiter gives back an input that does not end with the delimiter |
| `FileUtils.Join` | utils/file_utils.cpp:99-111 | the parts with the separator between neighbours; "" for no parts |
| `FileUtils.JoinLength` | utils/file_utils.cpp:99-111 | a join of n parts has their total length plus exactly n-1 separators |
| `FileUtils.ToLowerString` | utils/file_utils.cpp:113-117 | same length, every char lower-cased with ::tolower |
| `FileUtils.SlugifyAlphabet` | utils/file_utils.cpp:119-128 | a slug uses only [a-z0-9-] and neither starts nor ends with '-' |
| `FileUtils.SlugifyNoDoubleDash` | utils/file_utils.cpp:119-128 | a slug never contains "--" |
| `FileUtils.SlugifyKeepsAlnum` | utils/file_utils.cpp:119-128 | a slug keeps every [a-z0-9] char of the lower-cased text, in order |
| `FileUtils.ParseArray` | utils/file_utils.cpp:130-143 | the contents of each non-empty "..." in order of appearance |
| `FileUtils.ParseArrayRoundTrip` | utils/file_utils.cpp:130-143 | a list of quoted non-empty items reads back as those items |
| `FileUtils.ParseLine` | utils/file_utils.cpp:181-194 | no pair exactly when the line holds no ':' |
| `FileUtils.ParseLineRoundTrip` | utils/file_utils.cpp:181-194 | "key: value" reads back as the trimmed key and value |
| `FileUtils.ApplyLinesSnoc` | utils/file_utils.cpp:165-169 | lines are applied in order, so a later key overwrites an earlier one |
| `FileUtils.ApplyLinesKeys` | utils/file_utils.cpp:165-169 | the metadata keys are exactly the keys of the lines that hold ':' |
| `FileUtils.CollectMetadata` | utils/file_utils.cpp:164-169 | the line loop builds the map the lines define |
| `FileUtils.ParseFrontmatter` | utils/file_utils.cpp:145-179 | without a leading "---" or a closing marker the input is returned as content with no metadata; otherwise metadata from the lines and the trimmed rest |
| `FileUtils.PathToRoute` | utils/file_utils.cpp:51-68 | a route starts with '/' and holds no backslash |
| `FileUtils.PathToRoutePage` | utils/file_utils.cpp:51-68 | page.md is served at /page |
| `FileUtils.PathToRouteRootIndex` | utils/file_utils.cpp:51-68 | index.md is served at / |
| `FileUtils.PathToRouteDirIndex` | utils/file_utils.cpp:51-68 | dir/index.md is served at /dir |
| `Html.EscapeChar` | parsers/html/html.hpp:28-47 | each reserved char becomes its entity, every other char is copied |
| `Html.Escape` | parsers/html/html.hpp:24-50 | the output contains no <, >, " or ', and is empty only for an empty input |
| `Html.EscapePlain` | parsers/html/html.hpp:24-50 | text without reserved chars is left unchanged |
| `Html.EscapeHtml` | parsers/html/html.hpp:24-50 | the loop computes Escape of its input |
| `Html.UnescapeHtml` | parsers/html/html.hpp:52-80 | the loop computes Unescape of its input |
| `Html.UnescapePlain` | parsers/html/html.hpp:52-80 | text without '&' is left unchanged |
| `Html.UnescapeEscape` | parsers/html/html.hpp:24-80 | unescape_html(escape_html(s)) == s for every string |
| `Html.SerializeNode` | parsers/html/html.hpp:84-130 | the stream writes exactly the layout of Serialize |
| `Html.WriteAttributes` | parsers/html/html.hpp:91-94 | attributes are written in ascending key order as key="escaped value" |
| `Html.SelfClosingIgnoresBody` | parsers/html/html.hpp:89-99 | img, hr and br serialize as indent + "<tag" + attributes + " />", ignoring text and children |
| `Html.TextPartEscaped` | parsers/html/html.hpp:103-111 | node text outside a language- code element is escaped and reads back unchanged |
| `Html.TextPartRaw` | parsers/html/html.hpp:103-111 | a code element whose class starts with language- writes its text raw |
| `Html.InlineChildrenAtZero` | parsers/html/html.hpp:113-119 | children of an inline tag are written at indent 0 whatever the level |
| `Html.BlockClosesOnOwnLine` | parsers/html/html.hpp:113-124 | a block element with children closes on a new line at its own indent |
| `Html.BareText` | parsers/html/html.hpp:125-127 | a tag-less node is indent + escaped text, or "" when it has no text |
| `Html.ParseNodeAt` | parsers/html/html.hpp:151-281 | a parsed node has lower-case tag and attribute names and tagged children, and the cursor advances |
| `Html.ParseNode` | parsers/html/html.hpp:151-281 | the cursor loop computes ParseNodeAt |
| `Html.ReadBody` | parsers/html/html.hpp:230-248 | the body loop computes ParseBody |
| `Html.ReadClosingTag` | parsers/html/html.hpp:250-278 | trailing text is trimmed and unescaped; a missing or mismatched closing tag is an error |
| `Html.Deserialized` | parsers/html/html.hpp:135-142 | a parsed root has a tag and the parser's shape |
| `Html.Deserialize` | parsers/html/html.hpp:135-142 | computes Deserialized, failing when there is no root element |
| `Html.RoundTrip` | parsers/html/html.hpp:84-281 | deserialize(serialize(n)) == n for every tree of readable tags without attributes and with trimmed leaf text |
| `Html.NoRootElement` | parsers/html/html.hpp:135-142 | input that does not open an element fails with "No root element found" |
| `Html.EndAfterOpen` | parsers/html/html.hpp:159-162 | a '<' at the end of the input fails with "Unexpected end of input" |
| `Html.EmptyTagName` | parsers/html/html.hpp:168-175 | '<' followed by a space or '>' fails with "Empty tag name" |
| `Html.UnclosedBody` | parsers/html/html.hpp:230-278 | a body that runs to the end of the input fails with "Missing closing tag" |
| `Html.MissingTagEnd` | parsers/html/html.hpp:224-227 | a start tag whose name and attributes run to the end of the input fails with "Expected '>' after tag" |
| `Html.MismatchedClosingTag` | parsers/html/html.hpp:262-270 | "<t>", text, then "</u>" for another tag u fails with "Mismatched closing tag" |
| `Markdown.SerializeMarkdownNode` | parsers/markdown/markdown.hpp:293-435 | the stream writes exactly MarkdownOf: headings, fences, fixed list prefixes and the table separator line |
| `Markdown.ConvertedKind` | parsers/markdown/markdown.hpp:106-292 | every kind becomes a tag of its own, and a heading's tag spells its level |
| `Markdown.HeadingTag` | parsers/markdown/markdown.hpp:118-124 | h + level reads back as that level |
| `Markdown.ContainerChildren` | parsers/markdown/markdown.hpp:106-272 | containers convert their children one for one and in order, then their text as one more child |
| `Markdown.CodeBlockRaw` | parsers/markdown/markdown.hpp:139-152 | a code block becomes pre > code, written raw exactly when it has a language |
| `Markdown.InlineCodeEscaped` | parsers/markdown/markdown.hpp:153-159 | inline code is always escaped |
| `MarkdownParser.FindNext` | parsers/markdown/markdown.hpp:601-690 | the pattern search tries bold, italic, code, link, image in that order |
| `MarkdownParser.ParseInline` | parsers/markdown/markdown.hpp:601-717 | the inline loop computes Inline |
| `MarkdownParser.InlineRoundTrip` | parsers/markdown/markdown.hpp:601-717 | inline parsing keeps every char: its nodes serialize back to the text |
| `MarkdownParser.TokensImageAlt` | parsers/markdown/markdown.hpp:601-717 | every Image the tokenizer yields has an empty alt, because link is tried first |
| `MarkdownParser.ImageReadsAsLink` | parsers/markdown/markdown.hpp:601-717 | ![alt](src) with non-empty alt reads as Text "!" followed by a Link |
| `MarkdownParser.PlainInline` | parsers/markdown/markdown.hpp:601-717 | text with no *, ` or [ is one Text node |
| `MarkdownParser.ParseBlock` | parsers/markdown/markdown.hpp:459-599 | one call appends what Block says and moves past at least one line |
| `MarkdownParser.ReadLines` | parsers/markdown/markdown.hpp:440-447 | the lines are the getline pieces of the input |
| `MarkdownParser.Deserialize` | parsers/markdown/markdown.hpp:440-456 | the document's children are the blocks of all lines, in order |
| `MarkdownParser.DeserializedWellFormed` | parsers/markdown/markdown.hpp:440-456 | deserialize always gives a well-formed Document, empty for empty input |
| `MarkdownParser.ListOrderFromFirstLine` | parsers/markdown/markdown.hpp:519-547 | every list item is ordered exactly when the list's first line is numbered, one item per consumed line |
| `MarkdownParser.TableRowsKept` | parsers/markdown/markdown.hpp:549-586 | a table ends at the first line without '|' and keeps only rows with cells |
| `MarkdownParser.SeparatorLineDropped` | parsers/markdown/markdown.hpp:398-402 | the separator line the serializer writes is dropped by the table parser |
| `MarkdownParser.TitleDoesNotStopParagraph` | parsers/markdown/markdown.hpp:588-598 | a "# Title" line does not end a paragraph |
| `MarkdownParser.ParagraphAbsorbsTitle` | parsers/markdown/markdown.hpp:588-598 | so a heading line right after paragraph text is absorbed |
| `MarkdownRoundTrip.MarkdownRoundTrip` | parsers/markdown/markdown.hpp:293-599 | deserialize(markdown(doc)) == doc for documents of simple headings, rules and fenced code |
| `Json.EscapedChar` | parsers/json/json.hpp:68-103 | only ", \ and control chars start with a backslash; every other char is copied |
| `Json.WriteString` | parsers/json/json.hpp:68-103 | appends the quoted, escaped string |
| `Json.Serialize` | parsers/json/json.hpp:57-127 | appends null/true/false, strings, arrays joined by ',' and objects |
| `Json.Parser.ParseValue` | parsers/json/json.hpp:164-182 | the cursor parser computes ValueAt: dispatch on the first non-space char |
| `Json.Parser.ParseString` | parsers/json/json.hpp:230-289 | the cursor parser computes StringAt |
| `Json.Parser.ParseArray` | parsers/json/json.hpp:291-313 | the cursor parser computes ArrayAt |
| `Json.Parser.ParseObject` | parsers/json/json.hpp:315-347 | the cursor parser computes ObjectAt, a later duplicate key replacing the earlier value |
| `Json.Deserialize` | parsers/json/json.hpp:134-137 | computes Deserialized: the first value of the input |
| `JsonRoundTrip.DeserializeSerialized` | parsers/json/json.hpp:57-347 | deserialize(serialize(v) + rest) == v for every number-free value and any trailing text |
| `JsonRoundTrip.BlankFails` | parsers/json/json.hpp:150-166 | an empty or all-white-space input fails with "Unexpected end of input" |
| `JsonRoundTrip.UnterminatedString` | parsers/json/json.hpp:230-289 | a string the input ends inside fails with "Unexpected end of input" |
| `JsonRoundTrip.UnknownEscape` | parsers/json/json.hpp:281-282 | a backslash before a char that starts no escape fails with "Invalid escape sequence" |
| `JsonRoundTrip.WideUnicodeEscape` | parsers/json/json.hpp:267-278 | a \u escape naming a code above 0x7F fails with "Unicode characters > 0x7F not supported" |
| `JsonRoundTrip.ArrayAfterFirst` | parsers/json/json.hpp:301-309 | after an array's first element, the end of the input fails as a truncated document and a char other than ',' or ']' fails with "Expected ',' or ']' in array" |
| `JsonRoundTrip.ObjectAfterFirst` | parsers/json/json.hpp:337-343 | after an object's first member, the end of the input fails as a truncated document and a char other than ',' or '}' fails with "Expected ',' or '}' in object" |
| `JsonRoundTrip.KeyWithoutColon` | parsers/json/json.hpp:331-334 | an object key followed by something other than ':' fails with "Expected ':' after key in object", or as a truncated document at the end of the input |
| `Toml.EscapedChar` | parsers/toml/toml.hpp:67-102 | the named escapes for " \ and five control chars, \u00xx for every other byte outside 0x20..0x7E, the char itself otherwise |
| `Toml.WriteString` | parsers/toml/toml.hpp:67-102 | appends the quoted, escaped string |
| `Toml.Serialize` | parsers/toml/toml.hpp:60-127 | appends null/true/false, strings, arrays joined by ", " and tables as {key = value, ...} |
| `Toml.SkipTrivia` | parsers/toml/toml.hpp:142-154 | the first position that is neither white space nor inside a # comment |
| `Toml.Parser.SkipWhitespaceAndComments` | parsers/toml/toml.hpp:142-154 | the cursor loop computes SkipTrivia |
| `Toml.Parser.ParseValue` | parsers/toml/toml.hpp:284-302 | the cursor parser computes ValueAt: dispatch on t/f, a sign or digit, a quote, [ or {, the literal null, else "Invalid value" |
| `Toml.Parser.ParseBool` | parsers/toml/toml.hpp:304-313 | the cursor parser computes BoolAt |
| `Toml.Parser.ParseNumber` | parsers/toml/toml.hpp:315-342 | the cursor parser computes NumberAt (the lexeme only) |
| `Toml.Parser.ParseString` | parsers/toml/toml.hpp:344-403 | the cursor parser computes StringAt: the same escape decoding after either quote |
| `Toml.Parser.ParseKey` | parsers/toml/toml.hpp:248-261 | the cursor parser computes KeyAt: a quoted key or a non-empty bare key, else "Invalid key" |
| `Toml.Parser.ParseDottedKeys` | parsers/toml/toml.hpp:234-246 | the cursor parser computes DottedKeysAt: keys separated by '.' |
| `Toml.Parser.ParseTableHeader` | parsers/toml/toml.hpp:189-232 | the cursor parser computes HeaderAt and opens the table with Open, returning its path |
| `Toml.Parser.ParseKeyValue` | parsers/toml/toml.hpp:263-282 | the cursor parser computes KeyValueAt and assigns with AssignAt; a missing '=' is an error |
| `Toml.Parser.ParseArray` | parsers/toml/toml.hpp:405-427 | the cursor parser computes ArrayAt: [] or items separated by ',' up to ']' |
| `Toml.Parser.ParseInlineTable` | parsers/toml/toml.hpp:429-458 | the cursor parser computes InlineTableAt: {} or key = value members separated by ',' up to '}' |
| `Toml.Parser.Parse` | parsers/toml/toml.hpp:170-187 | the document loop computes DocumentAt from an empty root table |
| `Toml.Deserialized` | parsers/toml/toml.hpp:132-187 | a parsed document is always a table at the root |
| `Toml.Deserialize` | parsers/toml/toml.hpp:132-135 | computes Deserialized |
| `Toml.SetIn` | parsers/toml/toml.hpp:263-282 | a dotted key assignment adds its first key to the table and leaves every other key unchanged |
| `Toml.AssignAt` | parsers/toml/toml.hpp:263-282 | assigning in the current table, the one the document loop last opened, keeps the path to that table valid |
| `Toml.Open` | parsers/toml/toml.hpp:189-232 | opening a header adds its first key at the root, keeps every other root key, and leaves a valid path to the opened table |
| `TomlProperties.SetInLookup` | parsers/toml/toml.hpp:263-282 | after `a.b = v` the dotted key looks up v, whatever was there or on the way before |
| `TomlProperties.AssignTable` | parsers/toml/toml.hpp:263-282 | a key/value line changes exactly the current table the document loop holds, by the dotted-key assignment, and nothing else in the document |
| `TomlProperties.OpenTable` | parsers/toml/toml.hpp:189-232 | [a.b] re-enters an existing table at a.b (or a fresh one, replacing a non-table) and makes it current |
| `TomlProperties.OpenArray` | parsers/toml/toml.hpp:189-232 | [[a.b]] appends a fresh table to the array at a.b (replacing a non-array) and makes that table current |
| `TomlProperties.StringRoundTrip` | parsers/toml/toml.hpp:344-403 | parse_string reads back what write_string (lines 67-102) writes: parse_string(serialize(s) + rest) == s for every ASCII string s |
| `TomlProperties.QuotedRead` | parsers/toml/toml.hpp:344-403 | the escapes serialize writes read back the same between single quotes, for strings without a single quote |
| `TomlProperties.NonAsciiRejected` | parsers/toml/toml.hpp:382-392 | a byte from 0x80 up, which write_string writes as \u00xx (lines 93-96), fails to parse back with "Unicode characters > 0x7F not supported" |
| `TomlProperties.InvalidKeyFails` | parsers/toml/toml.hpp:248-261 | a document whose first token is not '[', a quote or a bare-key char fails with "Invalid key", as the "{invalid toml}" case of tests.cpp does |
| `TomlProperties.MissingEquals` | parsers/toml/toml.hpp:263-269 | a first line holding a bare key followed by a char other than '.' or '=' fails with "Expected '=' after key" |
| `TomlProperties.KeyOnly` | parsers/toml/toml.hpp:263-269 | a document that is only a bare key, white space and comments fails with "Unexpected end of input" |
| `TomlProperties.InvalidValue` | parsers/toml/toml.hpp:284-302 | after "key =", the end of the input is a truncated document and a char that starts no value fails with "Invalid TOML value" |
| `TomlProperties.EmptyDottedKey` | parsers/toml/toml.hpp:248-261 | after "key.", the end of the input is a truncated document and a char that starts no key fails with "Invalid key" |
| `TomlProperties.ArraySeparatorMissing` | parsers/toml/toml.hpp:405-427 | after an array's first element, the end of the input is a truncated document and a char other than ',' or ']' is a missing separator |
| `TomlProperties.TableSeparatorMissing` | parsers/toml/toml.hpp:429-458 | after an inline table's first member, the end of the input is a truncated document and a char other than ',' or '}' is a missing separator |
| `Template.FromStrings` | parsers/template/template_engine.hpp:46-50 | the vector-of-strings constructor gives an array of as many items, item i the string value of xs[i] |
| `Template.FromStringMap` | parsers/template/template_engine.hpp:55-60 | the map-of-strings constructor gives an object with exactly the same keys, each bound to the string value of m[k] |
| `Template.Nested` | parsers/template/template_engine.cpp:13-34 | get_nested_property: the empty path gives the value itself; a non-object or a missing first key gives the default "" value |
| `TemplateValues.NestedAppend` | parsers/template/template_engine.cpp:13-34 | descending along p and then q is the same as descending along p + q |
| `TemplateValues.TruthyShown` | parsers/template/template_engine.hpp:38-103 | a string is truthy exactly when it prints as something, a boolean exactly when it prints "true"; the default value is falsy and prints "" |
| `Template.SplitPath` | parsers/template/template_engine.cpp:418-430 | the getline loop over '.' returns PathParts(path), the non-empty pieces between dots |
| `TemplateValues.PathPartsClean` | parsers/template/template_engine.cpp:418-430 | split_path never returns an empty piece or a piece holding a dot |
| `TemplateValues.PathPartsName` | parsers/template/template_engine.cpp:418-430 | a name without dots is one part, or none when it is empty |
| `TemplateValues.PathPartsJoin` | parsers/template/template_engine.cpp:418-430 | split_path undoes joining clean parts with "." |
| `TemplateValues.ResolvePath` | parsers/template/template_engine.cpp:314-344 | resolve_variable and resolve_nested_variable look the name's parts up level by level, starting from the context as an object |
| `TemplateValues.ResolveStep` | parsers/template/template_engine.cpp:314-344 | looking up "a.b" is looking up b in the value a resolves to |
| `TemplateValues.MissingFalsy` | parsers/template/template_engine.cpp:314-344 | a name whose first part is not in the context resolves to the default value, which is falsy and prints "" |
| `Template.Parser.constructor` | parsers/template/template_engine.hpp:128-129 | a parser starts at position 0 with no errors, over the given template, context and helpers |
| `Template.Parser.Parse` | parsers/template/template_engine.cpp:80-93 | the loop copies text and renders each "{{" block until the end: the text is Render's and the recorded errors are Render's, appended |
| `Template.Parser.ParseStep` | parsers/template/template_engine.cpp:80-93 | one iteration of the parse loop: a block after "{{", otherwise one char copied |
| `Template.Parser.ParseBlock` | parsers/template/template_engine.cpp:95-111 | parse_block dispatches on #if, #each, #for, ">", '#' and otherwise a variable, as BlockAt does |
| `Template.Parser.ReadKind` | parsers/template/template_engine.cpp:95-111 | the block kind read after skipping white space, with the cursor past the keyword matched |
| `Template.Parser.ParseIfBlock` | parsers/template/template_engine.cpp:113-141 | parse_if_block's text, errors and end position are those of IfAt |
| `Template.Parser.ParseEachBlock` | parsers/template/template_engine.cpp:143-168 | parse_each_block's text, errors and end position are those of EachAt |
| `Template.Parser.ParseForBlock` | parsers/template/template_engine.cpp:170-203 | parse_for_block's text, errors and end position are those of ForAt |
| `Template.Parser.RenderEach` | parsers/template/template_engine.cpp:155-200 | the item loops of parse_each_block and parse_for_block render the body once per item with the loop variable bound, as Repeat does |
| `Template.Parser.ParseVariable` | parsers/template/template_engine.cpp:205-214 | parse_variable's text and end position are those of VariableAt |
| `Template.Parser.Match` | parsers/template/template_engine.cpp:216-227 | match succeeds exactly when the pattern is at the cursor and then moves past it; otherwise the cursor stays |
| `Template.Parser.MatchKeyword` | parsers/template/template_engine.cpp:229-238 | match_keyword succeeds exactly when the keyword is at the cursor, and moves past it only then |
| `Template.Parser.ExtractUntil` | parsers/template/template_engine.cpp:240-252 | the text up to the first occurrence of the pattern (or the end), with the cursor past the pattern |
| `TemplateValues.UntilFirst` | parsers/template/template_engine.cpp:240-252 | no occurrence of the pattern lies inside the extracted text, and the cursor lands just after the first one or at the end |
| `Template.Parser.ExtractCondition` | parsers/template/template_engine.cpp:254-272 | the text up to the first '}' outside nested braces, with the cursor there |
| `Template.Parser.ExtractHelperArgs` | parsers/template/template_engine.cpp:398-416 | the text up to the first '}' outside nested braces, with the cursor there |
| `Template.Parser.ExtractVariableName` | parsers/template/template_engine.cpp:274-288 | skips white space, then reads the run of alphanumerics, '_' and '.' |
| `Template.Parser.ExtractCollectionName` | parsers/template/template_engine.cpp:290 | the same read as extract_variable_name |
| `Template.Parser.SkipWhitespace` | parsers/template/template_engine.cpp:292-296 | the cursor moves to the first non-space char at or after it |
| `Template.Parser.Advance` | parsers/template/template_engine.cpp:305-310 | returns the char at the cursor and moves one on, or the NUL char at the end without moving |
| `Template.Parser.AddError` | parsers/template/template_engine.cpp:450-452 | appends one error with the kind, the message and the current position |
| `Template.Parser.ParseHelperCall` | parsers/template/template_engine.cpp:346-372 | parse_helper_call's text, errors and end position are those of HelperAt |
| `Template.Parser.ParsePartial` | parsers/template/template_engine.cpp:374-396 | parse_partial's text, errors and end position are those of PartialAt |
| `Template.Parser.ReadArgument` | parsers/template/template_engine.cpp:432-448 | a word between double or single quotes is its inner text, any other word is the variable's value |
| `Template.Parser.ParseHelperArguments` | parsers/template/template_engine.cpp:432-448 | the words of the argument text, read left to right, give Arguments(context, text, 0) |
| `TemplateValues.ArgumentsWords` | parsers/template/template_engine.cpp:432-448 | the arguments of words joined by single spaces are the words' values, one per word, in order |
| `TemplateValues.ArgumentKinds` | parsers/template/template_engine.cpp:432-448 | "lit" and 'lit' give the string lit; a word not starting with a quote gives the variable's value |
| `Template.SplitElse` | parsers/template/template_engine.cpp:124-136 | the two branches are the text before the first {{else}} and the text after it ("" when there is none) |
| `TemplateProperties.ElseSplit` | parsers/template/template_engine.cpp:124-136 | for t without {{else}}, the body t + "{{else}}" + f splits into exactly t and f |
| `TemplateProperties.NoElse` | parsers/template/template_engine.cpp:124-136 | a body without {{else}} is all the true branch and the false branch is "" |
| `Template.Capitalized` | parsers/template/template_engine.cpp:498-506 | same length, first char upper-cased, the rest unchanged |
| `Template.Strings` | parsers/template/template_engine.cpp:554-560 | the to_string of each item, in order |
| `Template.JoinHelper` | parsers/template/template_engine.cpp:545-563 | the join loop yields JoinText: the items' strings joined by the separator |
| `TemplateValues.JoinStrings` | parsers/template/template_engine.cpp:545-563 | join with no separator uses ", ", with one uses its text, and gives "" for a non-array |
| `TemplateValues.LengthCounts` | parsers/template/template_engine.cpp:508-523 | length gives the char count of a string, the item count of an array, the key count of an object, and "0" otherwise or without arguments |
| `Template.Invoke` | parsers/template/template_engine.cpp:363-371 | calling a helper gives Call: the built-in's text, or the custom helper's result or exception message |
| `Template.RenderTemplate` | parsers/template/template_engine.cpp:36-53 | render uses the default helpers when none are registered and returns the parse text; errors go to the log only |
| `TemplateProperties.PlainText` | parsers/template/template_engine.cpp:80-93 | a template without "{{" renders to itself, without errors |
| `TemplateProperties.VariableTag` | parsers/template/template_engine.cpp:205-214 | {{name}} renders as the to_string of the value resolve_variable (lines 314-325) finds, without errors; an absent name gives "" |
| `TemplateProperties.UnclosedVariable` | parsers/template/template_engine.cpp:205-214 | "{{" and a name with no "}}" after it is emitted as "{{" + name, the white space before the name dropped, and rendering goes on right after the name with the rest's text and errors |
| `TemplateProperties.UnclosedAtEnd` | parsers/template/template_engine.cpp:205-214 | "{{" and a name at the end of the template renders as itself, without errors |
| `TemplateProperties.IfTemplate` | parsers/template/template_engine.cpp:113-141 | {{#if c}}body{{/if}} renders the selected branch of the body, without errors |
| `TemplateProperties.IfOnly` | parsers/template/template_engine.cpp:113-141 | {{#if c}}t{{/if}} renders t when c's value is truthy and "" otherwise |
| `TemplateProperties.IfElse` | parsers/template/template_engine.cpp:113-141 | {{#if c}}t{{else}}f{{/if}} renders t when c's value is truthy and f otherwise |
| `TemplateProperties.EachTemplate` | parsers/template/template_engine.cpp:143-168 | {{#each xs}}body{{/each}} renders the body once per item of xs with "this" bound to it, without errors |
| `TemplateProperties.RepeatPlain` | parsers/template/template_engine.cpp:155-166 | a body without tags is repeated as it is, once per item |
| `TemplateProperties.EachPlain` | parsers/template/template_engine.cpp:143-168 | {{#each xs}}t{{/each}} with a plain t renders one copy of t per item of an array, and "" for any other value |
| `TemplateProperties.ForTemplate` | parsers/template/template_engine.cpp:170-203 | {{#for v in xs}}body{{/for}} renders the body once per item of xs with v bound to it, without errors |
| `TemplateProperties.RepeatVariable` | parsers/template/template_engine.cpp:188-200 | the body "{{v}}" prints each item's to_string once, in order |
| `TemplateProperties.ForVariable` | parsers/template/template_engine.cpp:170-203 | {{#for v in xs}}{{v}}{{/for}} prints the items of xs one after the other |
| `TemplateProperties.ContentUntil` | parsers/template/template_engine.cpp:240-252 | on a body followed by its end tag, with no earlier end tag, extract_until returns the body and moves past the tag |
| `TemplateProperties.NotKeywordName` | parsers/template/template_engine.cpp:229-238 | match_keyword after '#' does not read a name other than if, each or for followed by a space as that keyword |
| `TemplateProperties.HelperTemplate` | parsers/template/template_engine.cpp:346-372 | {{#name args}}: an unknown helper prints "" with the error "Unknown helper: name"; a helper's text is printed; an exception prints "" with "Helper 'name' error: " and its message |
| `TemplateValues.UpperVariable` | parsers/template/template_engine.cpp:482-488 | {{#upper x}} with the default helpers prints x's value upper-cased |
| `TemplateValues.CaseHelpers` | parsers/template/template_engine.cpp:482-506 | upper and lower keep the length and leave no char of the other case, are idempotent, capitalize leaves upper-cased text unchanged, and all three give "" without arguments |
| `Config.SiteError` | core/config.cpp:14-22 | a site passes exactly when its name is non-empty and its language is empty or 2 or 5 chars long; otherwise the first failing check's message |
| `Config.BuildError` | core/config.cpp:24-44 | a build section passes exactly when the four directories are non-empty and the output directory differs from the other three |
| `Config.DevError` | core/config.cpp:46-54 | a dev section passes exactly when the port lies in [1024, 65535] and the host is non-empty |
| `Config.PerformanceError` | core/config.cpp:56-64 | a performance section passes exactly when the cache age is not negative and the size limit is positive |
| `Config.ValidationError` | core/config.cpp:164-171 | the configuration passes exactly when all four sections pass |
| `Config.ValidationOrder` | core/config.cpp:164-171 | the sections are checked site, build, dev, performance and the first failure's message is reported with the "Configuration validation failed: " prefix |
| `Config.DefaultsValid` | core/config.hpp:17-56 | the built-in defaults pass validation |
| `Config.SharedSourceDirs` | core/config.cpp:24-44 | content, styles and templates may share one directory as long as the output directory differs |
| `Config.EnvBoolWords` | core/config.cpp:137-155 | a true word gives true, a false word false, anything else or an unset variable the default |
| `Config.EnvBoolCaseInsensitive` | core/config.cpp:143-144 | a value and its lower-cased form give the same boolean |
| `Config.EnvInt` | core/config.cpp:122-135 | a value std::stoi reads gives that number; an unset or unreadable one gives the default |
| `Config.Lookup` | core/config.cpp:114-120 | a variable has a value exactly when it is set, and the value is the environment's |
| `Config.NoOverrides` | core/config.cpp:221-269 | an empty environment overrides nothing |
| `Config.OverridesIdempotent` | core/config.cpp:221-269 | applying the same environment twice is applying it once |
| `Config.Config.ApplyEnvOverrides` | core/config.cpp:221-269 | the new settings are the old ones with each set variable applied to its field |
| `Config.Section` | core/config.cpp:272-275 | a section is read exactly when the root has it as a table |
| `Config.FieldCopied` | core/config.cpp:279-290 | a field present as a string replaces the old value whatever it was; any other field keeps it |
| `Config.Config.LoadSite` | core/config.cpp:271-291 | the site section is the old one with the document's string fields copied in |
| `Config.StringItemsAppend` | core/config.cpp:322-331 | collecting an array's strings distributes over concatenation, so every string is kept in order |
| `Config.StringItemsOne` | core/config.cpp:326-329 | one item: a string is kept, anything else dropped |
| `Config.Config.CollectStrings` | core/config.cpp:322-331 | the loop over global_styles yields the array's strings in order |
| `Config.LayoutStylesFrom` | core/config.cpp:333-351 | without a layout_styles table the map is unchanged; with one, the map holds exactly its array-valued layouts, each with its strings |
| `Config.Config.LayoutStyles` | core/config.cpp:333-351 | the clear-and-refill loop yields that map |
| `Config.LayoutStylesPrecedence` | core/config.cpp:293-355 | without a [build] table nothing changes; with one, a top-level layout_styles table replaces any set inside [build] |
| `Config.Config.LoadBuild` | core/config.cpp:293-355 | the build section is the old one with the document's fields, global styles and layout styles applied |
| `Config.Config.LoadDev` | core/config.cpp:357-390 | the dev section is the old one with the document's fields applied |
| `Config.SizeValue` | core/config.cpp:418-444 | a size read from text is below 2^64 |
| `Config.SizePlain` | core/config.cpp:438-439 | a numeral without a suffix is that many bytes |
| `Config.SizeKB` | core/config.cpp:427-439 | a numeral with KB is 1024 times as many bytes, in 64-bit arithmetic |
| `Config.SizeMB` | core/config.cpp:430-439 | a numeral with MB is 1024² times as many bytes, in 64-bit arithmetic |
| `Config.SizeGB` | core/config.cpp:433-439 | a numeral with GB is 1024³ times as many bytes, in 64-bit arithmetic |
| `Config.SizeNoDigits` | core/config.cpp:427-442 | a bare suffix is rejected and keeps the old size |
| `Config.Config.LoadPerformance` | core/config.cpp:392-445 | the performance section is the old one with the document's fields and size applied |
| `Config.LoadIdempotent` | core/config.cpp:101-104 | loading the same document twice is loading it once |
| `Config.EmptyDocument` | core/config.cpp:101-104 | a document with none of the sections changes nothing |
| `Config.FirstUnknown` | core/config.cpp:199-211 | no key is reported exactly when every key is a known section; a reported key is one of the keys and unknown |
| `Config.SchemaAccepts` | core/config.cpp:186-219 | the schema check passes exactly when the document parses and its root keys are all known sections; otherwise it names an unknown key |
| `Config.FindUnknown` | core/config.cpp:199-211 | the loop over the root keys finds the first unknown one |
| `Config.ValidateSchema` | core/config.cpp:186-219 | the schema check's outcome, parse failure first |
| `Config.Config.constructor` | core/config.hpp:17-56 | a new configuration holds the defaults |
| `Config.Config.Validate` | core/config.cpp:164-171 | the message thrown is the configuration's validation error |
| `Config.Config.LoadFromString` | core/config.cpp:91-112 | a document that does not parse changes nothing and reports its parse error; otherwise the four sections are loaded, the environment applied, and the validation error reported with the "Failed to parse configuration: " prefix |
| `Config.Config.Load` | core/config.cpp:66-89 | no file: the environment over the current settings, validated; a schema failure changes nothing and is reported with two prefixes; otherwise load_from_string's outcome with "Failed to load configuration: " before it |
| `Cli.Flag` | config_cli.cpp:43-110 | a flag succeeds using one entry for a switch and two for a value flag; it fails exactly for an unknown flag, a value flag at the end of argv, or a port std::stoi cannot read |
| `Cli.NamedSpellings` | config_cli.cpp:44-100 | the known spellings are exactly the eleven switches and the four value flags |
| `Cli.FlagUse` | config_cli.cpp:59-102 | -q sets quiet; -p with no value fails as "--port requires a value"; --host takes the next entry; an unknown spelling fails with "Unknown flag: " and its text |
| `Cli.Parse` | config_cli.cpp:11-41 | the loop over argv, advancing by what each flag used, yields the parsed arguments |
| `Cli.CommandWord` | config_cli.cpp:21-38 | a command word as the first argument sets the command, and help or version also sets its flag |
| `Cli.CommandOnlyFirst` | config_cli.cpp:21-31 | after a project path, a command word is taken as the project path and the command stays build |
| `Cli.CommandThenPath` | config_cli.cpp:21-28 | a path after build, dev or serve is the project path |
| `Cli.PortFlag` | config_cli.cpp:14-20 | --port with a numeral sets that port and skips the numeral |
| `Cli.Validate` | config_cli.cpp:169-191 | "" exactly when the port is absent or in range, verbose and quiet are not both set, and the filesystem checks pass; the port check comes first |
| `Cli.ServerPort` | config_cli.cpp:195-213 | --port wins; otherwise an environment port std::stoi reads and in [1024, 65535]; otherwise 8080 |
| `Cli.ServerHost` | config_cli.cpp:215-226 | --host wins, then the environment, then localhost |
| `Cli.VerboseIsEnvBool` | config_cli.cpp:228-236 | verbose logging is on exactly when the value, lower-cased, is a true word: get_env_bool with a false default |
| `HttpRequest.HeaderEnd` | http/http_server.hpp:264 | the header loop stops at the first "\r" line after the request line, or at the end of the text |
| `HttpRequest.ParseRequest` | http/http_server.hpp:254-289 | the getline loops build exactly the request `Parsed` describes: request line, headers up to the blank line, the remaining lines as the body |
| `HttpRequest.ReadHeaders` | http/http_server.hpp:264-281 | the header loop stops at the blank line and its map is the fold of every header line before it |
| `HttpRequest.ReadBody` | http/http_server.hpp:283-286 | the body is every remaining line, each followed by "\n" |
| `HttpRequest.BodyLines` | http/http_server.hpp:283-286 | reading the body back line by line gives the lines it was built from |
| `HttpRequest.LaterHeaderWins` | http/http_server.hpp:264-281 | when a key appears on several header lines, the map holds the value of the last one |
| `HttpRequest.HeaderKeys` | http/http_server.hpp:264-281 | every key in the map comes from some header line |
| `HttpRequest.SplitRoundTrip` | http/http_server.hpp:268-279 | "Name: value" splits at the first ':' into the lower-cased name and the value with its blanks stripped |
| `HttpRequest.HeaderRoundTrip` | http/http_server.hpp:265-279 | a CRLF-terminated header line loses its '\r' and reads back as the lower-cased name and the value |
| `HttpRequest.IfNoneMatch` | http/http_server.hpp:75-78 | "" when the request has no if-none-match header |
| `HttpRequest.IfNoneMatchRead` | http/http_server.hpp:75-78 | after a last header line "If-None-Match: v", in any letter case, get_if_none_match returns v |
| `HttpRequest.RequestLineRoundTrip` | http/http_server.hpp:259-262 | "METHOD PATH VERSION\r" reads back as its three whitespace-free words |
| `HttpRequest.ParsedRequestLine` | http/http_server.hpp:258-262 | the request built from a text starting with that line has that method, path and version, whatever follows |
| `HttpResponse.StatusText` | http/http_server.hpp:389-406 | every status has its own non-empty reason phrase on one line; the "Unknown" default is never produced |
| `HttpResponse.CodeNamesStatus` | http/http_server.hpp:50-57 | two statuses share a code only when they are the same status |
| `HttpResponse.ErrorCodes` | http/http_server.hpp:50-57 | the codes below 400 are exactly 200 and 304 |
| `HttpResponse.Extension` | http/http_server.hpp:375-377 | the extension is empty or starts at the file name's last '.', which is not its first char, and is a suffix of the path with no other '.' and no '/' |
| `HttpResponse.ExtensionOf` | http/http_server.hpp:375-377 | "stem.ext", with the stem not ending in '/', has extension ".ext" |
| `HttpResponse.ContentTypeOf` | http/http_server.hpp:375-387 | the content type of "stem.ext" is the table entry for ".ext" lower-cased, in any letter case, or octet-stream |
| `HttpResponse.NoDotOctetStream` | http/http_server.hpp:375-387 | a file name without '.' has no extension and is served as application/octet-stream |
| `HttpResponse.NoExtensionOctetStream` | http/http_server.hpp:332-373 | the empty extension is not in the table |
| `HttpResponse.DotFileOctetStream` | http/http_server.hpp:375-387 | a dot file such as ".profile" has no extension and is served as application/octet-stream |
| `HttpResponse.ResponseEndsWithBody` | http/http_server.hpp:466-467 | the response ends with the body, unchanged |
| `HttpResponse.ContentLength` | http/http_server.hpp:455 | the third head line is Content-Length with the body's size, and its value reads back as that size |
| `HttpResponse.ETagHeader` | http/http_server.hpp:459-464 | an ETag line and "Cache-Control: public, max-age=3600" exactly when the etag is non-empty, "Cache-Control: no-cache" exactly when it is empty |
| `HttpResponse.ResponseFraming` | http/http_server.hpp:450-470 | split at '\n', the response is its head lines each with its '\r', one "\r" line (where parse_request's header loop stops), then the body's lines |
| `HttpResponse.ErrorPageEnd` | http/http_server.hpp:472-504 | the error page ends with the "code text" heading and the given message, or the status's default message when none is given |
| `HttpResponse.ErrorResponseHead` | http/http_server.hpp:506 | an error response is HTML and is never cached |
| `HttpServer.Decoded` | http/http_server.hpp:298-309 | decoding never lengthens the path and decodes a non-empty path to a non-empty one; it fails exactly where std::stoul would throw |
| `HttpServer.DecodePath` | http/http_server.hpp:298-309 | the index loop builds the decoded path of the specification, or fails where std::stoul throws |
| `HttpServer.HexPair` | http/http_server.hpp:301-302 | two hex digits read by std::stoul in base 16 give 16 times the first digit's value plus the second's |
| `HttpServer.DecodeEncode` | http/http_server.hpp:298-309 | percent-encoding every char (below 256) and decoding gives the original path back |
| `HttpServer.DecodePlain` | http/http_server.hpp:298-309 | a path without '%' decodes to itself |
| `HttpServer.DecodePlainPrefix` | http/http_server.hpp:298-309 | text without '%' before any rest is kept as it is in front of the rest's decoding |
| `HttpServer.DotDotFound` | http/http_server.hpp:311 | find("..") succeeds exactly when two adjacent '.' occur |
| `HttpServer.ResolveNoDotDot` | http/http_server.hpp:311-313 | a resolved path never contains "..", so a request cannot climb out of the root |
| `HttpServer.ResolveRoot` | http/http_server.hpp:294-296 | "/" resolves to "/index.html" |
| `HttpServer.ResolveEncodedDotDot` | http/http_server.hpp:298-313 | a ".." written as "%2e%2e" is caught after decoding and resolves to "/index.html" |
| `HttpServer.DotDotDecoded` | http/http_server.hpp:298-309 | "%2e%2e" after '%'-free text decodes to ".." after that text |
| `HttpServer.ResolveExtensionless` | http/http_server.hpp:315-329 | a plain path without '.' and not ending in '/' becomes its "/index.html" if that exists, else its ".html" if that exists, else stays |
| `HttpServer.Server.ResolvePath` | http/http_server.hpp:291-330 | resolve_path over the server's root gives the resolution of the specification |
| `HttpServer.TotalRemove` | http/http_server.hpp:424-448 | the size of the cache is any one entry's content size plus the size of the rest |
| `HttpServer.Server.constructor` | http/http_server.hpp:85-90 | a new server has an empty cache of size 0, which keeps the size invariant |
| `HttpServer.Server.Remove` | http/http_server.hpp:549-551 | taking one entry out subtracts exactly its content size, keeping current_cache_size_ equal to the sum of the cached sizes |
| `HttpServer.Server.CleanupCache` | http/http_server.hpp:419-434 | afterwards the cache holds exactly the entries still fresh at the clock reading, and the size invariant holds |
| `HttpServer.Server.Oldest` | http/http_server.hpp:438-444 | the chosen entry has a cached_at no later than any other entry's |
| `HttpServer.Server.EvictIfNeeded` | http/http_server.hpp:436-448 | afterwards the new content fits or the cache is empty; only entries are removed, none when it already fitted, no removed entry is newer than a kept one, and eviction stops as soon as the content fits: when anything was removed, some removed entry still left no room for it beside the kept ones |
| `HttpServer.Base` | http/http_server.hpp:538-553 | the cache served from keeps every entry but the requested one, which goes only when fresh and older than the file |
| `HttpServer.StoredAfterEviction` | http/http_server.hpp:436-448 | evicting oldest-first and then storing gives a cache holding the new entry, entries of the old cache otherwise, no evicted entry newer than a kept one, no eviction when the content fitted, and no eviction past the point where it fitted (StoppedAtFit) |
| `HttpServer.OverEvictionNotStored` | http/http_server.hpp:436-448 | with a one-byte entry cached before one that fills the rest of the cache, storing one byte keeps the newer entry, and emptying the whole cache is not a Stored result |
| `HttpServer.Server.Store` | http/http_server.hpp:574-579 | the corrected store (see Findings): the entry is cached under its key, replacing any entry there, and current_cache_size_ stays the exact sum of the cached sizes |
| `HttpServer.Server.Serve` | http/http_server.hpp:538-581 | a fresh cached copy no older than the file is served as is and the cache kept; otherwise a stale copy is dropped (Base), an unreadable file gets 500, and a readable one 200 with its content type and etag, cached as Stored describes when it fits (oldest first, stopping once it fits), with the corrected store |
| `HttpServer.Server.Fetch` | http/http_server.hpp:555-581 | a miss reads the file: an unreadable one is a 500 and changes nothing; a readable one is served with its content type and etag, and cached as Stored describes (oldest first, stopping once it fits) unless it is larger than the cache |
| `HttpServer.Route` | http/http_server.hpp:509-536 | 405 for a method other than GET; 500 when resolve_path fails or the size is unknown; 404 for a missing file or a directory; 304 with an empty body when If-None-Match equals the etag; otherwise the file, free of "..", with its etag |
| `HttpServer.Server.Check` | http/http_server.hpp:509-536 | the checks handle_request makes before the cache reach the decision of the specification |
| `HttpServer.Server.Handle` | http/http_server.hpp:509-589 | an answer decided before the cache (405, 404, 500, 304) leaves the cache unchanged; otherwise the stale entries go, then the file is served from the cache or read, and the new cache is given by Base and Stored (eviction oldest first, stopping once the content fits) with the corrected store; the size invariant holds after every request |
| `HttpServer.StoreAsWritten` | http/http_server.hpp:574-578 | as written, storing over a key adds the new size without subtracting the old entry's |
| `HttpServer.StoreAsWrittenDrifts` | http/http_server.hpp:538-578 | an entry kept by cleanup_cache and stale at the lookup a moment later is overwritten, and current_cache_size_ then exceeds the sum of the cached sizes |
| `Content.ApplyMetadata` | core/content.cpp:22-44 | the front-matter loop computes MetaOf: the meta with the document's keys applied |
| `Content.FieldDispatch` | core/content.cpp:22-44 | title, layout and date are copied, classes and tags read as lists, and every other key becomes a custom field; no custom field comes from elsewhere |
| `Content.ListValueBracketed` | core/content.cpp:29-40 | a bracketed list of quoted non-empty items reads back as those items |
| `Content.ListValuePlain` | core/content.cpp:29-40 | a value not starting with '[' is the only item |
| `Content.InlineClasses` | core/content.cpp:54-78 | the text left holds no further match of the heading pattern and is no longer than the input; every collected class is non-empty and free of '"' |
| `Content.ParseInlineClasses` | core/content.cpp:54-78 | the loop computes InlineClasses and appends the collected classes after the ones the page had |
| `Content.InlineClassesStep` | core/content.cpp:54-78 | each pass replaces the leftmost match by its heading and collects the quoted items of its class list, in order |
| `Content.InlineClassesHeading` | core/content.cpp:54-78 | "# heading --- classes[list]" keeps the heading and drops the class list, whose items come first |
| `Content.InlineClassesPlain` | core/content.cpp:54-78 | a text without '-' is left as it is, with no classes |
| `Content.FirstMatchLeftmost` | core/content.cpp:60 | regex_search finds the leftmost match: no match starts before it |
| `Content.ParseContent` | core/content.cpp:19-50 | parse_content computes Parsed: front matter applied, inline classes appended, the rest parsed as Markdown |
| `Content.ParsedFields` | core/content.cpp:19-50 | parsing keeps route, slug and rendered text, yields a well-formed tree, keeps the front-matter classes in front of the inline ones, and applies only inline classes to a text without front matter |
| `Content.Rendered` | core/content.cpp:52 | render_html sets the rendered text to the HTML of the tree and changes nothing else |
| `Content.Manager.constructor` | core/content.cpp:80-81 | a manager holds the two directories and no file |
| `Content.Manager.ScanContent` | core/content.cpp:83-106 | the files are those of the sources, one per source and in order, each routed, parsed and rendered |
| `Content.ScanFile` | core/content.cpp:90-96 | one source: route from its path, then parse_content and render_html |
| `Content.ScannedAll` | core/content.cpp:83-106 | as many files as sources, each with a well-formed tree and its HTML rendered |
| `Content.Manager.ProcessAll` | core/content.cpp:108-112 | every file is rendered again from its tree, in place |
| `Content.Manager.GetContent` | core/content.cpp:114-121 | the first file at the route, or none exactly when no file has it |
| `Content.Manager.GenerateIndexes` | core/content.cpp:125-157 | the files, then the index pages of their directories, built from the files as they were (see Findings) |
| `Content.GroupFiles` | core/content.cpp:128-134 | the first loop groups the files by parent directory, skipping those directly under / |
| `Content.GroupedAt` | core/content.cpp:128-134 | a directory is grouped exactly when it has files, and its group is its files in order |
| `Content.AppendPages` | core/content.cpp:136-156 | the second loop appends the index page of each directory holding more than one file, in key order |
| `Content.BuildIndexPage` | core/content.cpp:138-154 | the page is built line by line as IndexPage describes |
| `Content.IndexPage` | core/content.cpp:138-152 | an index page has the directory as route, slug "index", title "Index of" the directory and a well-formed tree |
| `Content.IndexPagesAre` | core/content.cpp:125-157 | every index page belongs to a directory holding more than one file and lists exactly those files |
| `Content.IndexPagesCover` | core/content.cpp:125-157 | every directory holding more than one file gets an index page |
| `Content.IndexPagesAscending` | core/content.cpp:136 | the index pages come in ascending std::map order of directory, one per directory |
| `Content.IndexShadowsPage` | core/content.cpp:125-157 | a page /name beside two files under /name/ gets an index page with its own route |
| `Content.IndexDirTop` | core/content.cpp:130 | a top-level route belongs to no directory |
| `Content.IndexDirNested` | core/content.cpp:130-131 | a route dir/name belongs to dir |
| `Content.Manager.WriteOutput` | core/content.cpp:159-179 | one write per file, in order, of its rendered text to OutputFile of its route |
| `Content.OutputFilePage` | core/content.cpp:165-173 | a route /path is written to path.html below the output directory |
| `Content.OutputFileInjective` | core/content.cpp:159-179 | distinct routes go to distinct files, except the root and /index |
| `Content.RootCollision` | core/content.cpp:159-179 | the root page and a page at /index are written to the same file |
| `Content.LastWriteWins` | core/content.cpp:176 | a file holds what the last write to it wrote |
| `Content.PointersLiveExactly` | core/content.cpp:125-157 | as written, the pointers of index page j stay valid exactly when the j pushes before it fit the vector's capacity |
| `Content.DanglingIndexPointers` | core/content.cpp:125-157 | as written, four files under two directories make the second index page read through dangling pointers |
| `Generator.SiteGenerator.constructor` | core/generator.cpp:15-21 | a generator starts with no stylesheets, layouts or files |
| `Generator.SiteGenerator.LoadStyles` | core/generator.cpp:23-56 | no styles directory gives no stylesheets; otherwise one per .css file that copies |
| `Generator.SheetsOf` | core/generator.cpp:34-55 | a stylesheet name is known exactly when one of its files copied, with no content |
| `Generator.SiteGenerator.LoadLayouts` | core/generator.cpp:58-88 | no templates directory gives no layouts; otherwise LayoutsOf the readable templates |
| `Generator.LayoutsOfKeys` | core/generator.cpp:68-87 | the layouts are exactly the readable templates, each with its text and the styles layout_styles gives it |
| `Generator.LayoutsOfLast` | core/generator.cpp:68-87 | the last readable template of a name gives that layout's text |
| `Generator.SiteGenerator.Generate` | core/generator.cpp:90-130 | scan, process and index the content, then one write per file, in order, of its page to its path |
| `Generator.OutputsAt` | core/generator.cpp:97-127 | write k is file k's page at file k's path |
| `Generator.RenderedAgain` | core/generator.cpp:94-95 | process_all after scan_content changes no file |
| `Generator.SiteGenerator.OutputPath` | core/generator.cpp:104-123 | the path generate writes a page to is PagePath |
| `Generator.PagePathPlain` | core/generator.cpp:104-123 | a page that is not an index file goes where write_output puts it |
| `Generator.PagePathIndex` | core/generator.cpp:114-118 | an index file below the root goes to index.html in the directory of its route |
| `Generator.PagePathApart` | core/generator.cpp:104-123 | an index file and another page of the same route go to different files |
| `Generator.SiteGenerator.GeneratePage` | core/generator.cpp:132-153 | the page is the chosen layout's template rendered in the page's context with the collected styles |
| `Generator.Chosen` | core/generator.cpp:132-148 | the named layout's template and styles; else the default layout's template or the built-in one, with no styles |
| `Generator.ChosenFallback` | core/generator.cpp:136-148 | a page of an unknown layout gets the default layout's template but none of its styles |
| `Generator.ChosenBuiltin` | core/generator.cpp:143-147 | without layouts every page gets the built-in template |
| `Generator.ChosenSource` | core/generator.cpp:132-148 | the template comes from the named layout, the default layout or the built-in text, and required styles only from the named layout |
| `Generator.SiteGenerator.CollectStyles` | core/generator.cpp:155-184 | the link tags of the global, required and class styles that exist, in that order, joined by a newline and four spaces |
| `Generator.PushLinks` | core/generator.cpp:158-175 | each loop appends a link for every known name, in order |
| `Generator.JoinLinks` | core/generator.cpp:177-182 | the tags joined by the separator |
| `Generator.Kept` | core/generator.cpp:158-175 | the kept names are exactly the known ones, in order |
| `Generator.KeptAppend` | core/generator.cpp:158-175 | keeping known names distributes over concatenation |
| `Generator.LinkName` | core/generator.cpp:161 | a link tag holds the stylesheet name between its fixed prefix and suffix |
| `Generator.StylesEmpty` | core/generator.cpp:155-184 | the styles are empty exactly when no listed name is known |
| `Generator.StylesInOrder` | core/generator.cpp:155-184 | global, then required, then class styles, each group in its own order |
| `Generator.StylesAllKnown` | core/generator.cpp:155-184 | when every name is known, one link per name in order |
| `Generator.SiteGenerator.ApplyTemplate` | core/generator.cpp:186-212 | the template rendered in Context, with the engine's registry |
| `Generator.ContextOverrides` | core/generator.cpp:186-212 | the context holds the built-in keys and the custom fields, a custom field winning over a built-in value of its name |
| `Generator.ContextPlain` | core/generator.cpp:188-206 | without custom fields the context holds the page's title, text, styles, classes and tags |
| `Generator.Override` | core/generator.cpp:207-209 | the custom fields are laid over the context |
| `Generator.OverrideKeys` | core/generator.cpp:207-209 | the loop over the custom keys lays them over the context |
| `Generator.FieldsAll` | core/generator.cpp:207-209 | the loop's fields over all keys are the string map's fields |

## Left out

- Json.Serialize: requires a number-free value; a number is written with std::ostream's default formatting of a double, which is not modelled. Object members are written in ascending key order, where the source walks a std::unordered_map whose order is unspecified.
- Toml.Serialize: requires a number-free value, for the same reason; table keys are written in ascending order, where the source walks a std::unordered_map.
- JsonRoundTrip.DeserializeSerialized: stated for number-free values only, since a JSON or TOML number is kept as the text parse_number scanned (its double value is not modelled).
- Toml.EscapedChar: a char stands for one byte of a std::string; Toml.Byte reads a char above 0xFF modulo 0x100. UTF-8 encoding of text is not modelled.
- HttpResponse.ContentLength: counts chars, each standing for one byte of the body.
- Config.ValidateSchema: reports the least unknown root key in ascending order; the source reports whichever unknown key its std::unordered_map yields first.
- Template.RenderTemplate: the default helpers are upper, lower, capitalize, length and join; formatDate, truncate, add and subtract, which register_default_helpers also registers, are not modelled, so a template calling them renders "" and records "Unknown helper: " with the name.
- Template.Value: the NUMBER kind of TemplateValue is left out, and a DATE is kept as the text std::put_time prints for it, since the clock and the time zone are outside the model.
- Template.Parser.ParsePartial: the program never sets a partial loader, so every partial renders "" with "No partial loader configured"; loading a partial through a loader is not modelled.
- Content.ParseInlineClasses: std::regex_replace reads the heading as a format string, so "$&", "$1", "$$" and the like in a heading are expanded; the model inserts the heading as it is. With "$&" in a heading the source's loop never ends, while the model's terminates.
- Markdown.ToHtml: requires WellFormed, i.e. href on every link and src and alt on every image; on other trees the source's std::map::at throws std::out_of_range, which is not modelled. Every tree the parser builds is well formed.
- HttpRequest.ParseRequest: on an empty header line the source reads line.back() of an empty string, which is undefined; the model reads that line as one without ':'.
- HttpServer.ResolveDecoded: back() on an empty decoded path is undefined in the source; the model reads it as not '/'.
- HttpServer.Server.Handle: the clock is three integer readings (cleanup, lookup, store), the file system a map from path to file information, and generate_etag the etagOf parameter; sockets, threads and the event loop are not modelled.
- Cli.Parse: the project path is kept as the argument given; std::filesystem::absolute and the existence checks of validate are one string parameter of Cli.Validate.
- Generator.SiteGenerator.Generate: directory walks, file reads and writes are parameters and results (the sources in walk order, the writes in order); creating directories and copying stylesheets are not modelled.
- Content.Manager.ScanContent: a file whose read throws is skipped by the source; the model takes the sources that were read.
- Config.Config.Load: whether the configuration file exists and its text are parameters, the environment is a map, and what static_cast<int> and static_cast<size_t> make of each TOML number is the numbers parameter, since the double a number parses to is not modelled.
- Template.RenderTemplate: the errors render prints and the progress lines the generator and the content manager log are dropped.

## Findings

| source | as written | input that shows it | evidently intended | confidence | as-written member | corrected member |
|---|---|---|---|---|---|---|
| http/http_server.hpp:574-579 | storing a file adds its size to current_cache_size_ and assigns the map entry, without subtracting the size of an entry already under that path | an entry still fresh when cleanup_cache runs and stale at the lookup a moment later stays in the map and is overwritten, so current_cache_size_ then exceeds the sum of the cached sizes | an entry already under the path is taken out first, so current_cache_size_ stays the sum of the cached sizes | not executed | HttpServer.StoreAsWrittenDrifts | HttpServer.Server.Store |
| core/content.cpp:125-157 | the groups hold pointers into content_files, and index pages are pushed onto content_files while those pointers are still read | four files under two directories, each with two files: scan_content leaves the vector full, the first push moves its elements, and the second index page reads titles and routes through dangling pointers | the index pages list the files as they were before the first page was pushed | not executed | Content.DanglingIndexPointers | Content.Manager.GenerateIndexes |
