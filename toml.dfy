/** The TOML value codec of parsers/toml/toml.hpp: Value::serialize and the
    cursor-based Parser, including the table headers and dotted keys that
    build the document's nested tables. */
module Toml {
  import opened Wrappers
  import opened Chars
  import opened StdString
  import opened StdMap
  import Json

  /** toml::Value.  A number keeps the text parse_number scanned: its
      floating-point value is not modelled. */
  datatype Value =
    | Null
    | Bool(b: bool)
    | Number(lexeme: string)
    | Str(s: string)
    | Array(items: seq<Value>)
    | Object(fields: map<string, Value>)

  /** A value with no number anywhere inside it. */
  predicate NumberFree(v: Value)
    decreases v
  {
    match v
    case Number(_) => false
    case Array(items) => forall i :: 0 <= i < |items| ==> NumberFree(items[i])
    case Object(fields) => forall k :: k in fields ==> NumberFree(fields[k])
    case _ => true
  }

  // ---------------------------------------------------------------------
  // Value::serialize

  /** The byte a char stands for, as static_cast<unsigned char> reads it. */
  function Byte(c: char): (b: nat)
    ensures b < 0x100
  {
    if c as int < 0x100 then c as int else c as int % 0x100
  }

  /** A byte serialize copies when it needs no named escape. */
  predicate Printable(c: char) { 0x20 <= Byte(c) <= 0x7E }

  /** What serialize writes for one char of a string: the named escapes,
      \u00xx (lower-case hex of the byte, as "%04x" prints it) for every
      other byte outside 0x20..0x7E, and the char itself otherwise. */
  function EscapedChar(c: char): (r: string)
    ensures r != [] && (r[0] == '\\' <==> c == '"' || c == '\\' || !Printable(c))
    ensures Printable(c) && c != '"' && c != '\\' ==> r == [c]
  {
    if c == '"' then "\\\""
    else if c == '\\' then "\\\\"
    else if c == Json.BACKSPACE then "\\b"
    else if c == Json.FORM_FEED then "\\f"
    else if c == '\n' then "\\n"
    else if c == '\r' then "\\r"
    else if c == '\t' then "\\t"
    else if !Printable(c) then "\\u00" + [Json.HexDigit(Byte(c) / 16), Json.HexDigit(Byte(c) % 16)]
    else [c]
  }

  /** The escaped body of a serialized string. */
  function Escaped(s: string): string {
    if s == [] then [] else EscapedChar(s[0]) + Escaped(s[1..])
  }

  function Quoted(s: string): string {
    "\"" + Escaped(s) + "\""
  }

  /** The keys of a table in the order the model visits them (the source
      visits an unordered_map, whose order is not specified). */
  function TableKeys(fields: map<string, Value>): (keys: seq<string>)
    ensures |keys| == |fields|
    ensures forall k :: k in fields <==> k in keys
    ensures forall i, j :: 0 <= i < j < |keys| ==> keys[i] != keys[j]
  {
    SortedKeys(fields.Keys)
  }

  function Serialized(v: Value): string
    requires NumberFree(v)
    decreases v, 2
  {
    match v
    case Null => "null"
    case Bool(b) => if b then "true" else "false"
    case Str(s) => Quoted(s)
    case Array(items) => "[" + ElementsText(v, |items|) + "]"
    case Object(fields) => "{" + MembersText(v, TableKeys(fields), |fields|) + "}"
  }

  /** The first k array elements, separated by ", ". */
  function ElementsText(v: Value, k: nat): string
    requires v.Array? && NumberFree(v) && k <= |v.items|
    decreases v, 1, k
  {
    if k == 0 then ""
    else if k == 1 then Serialized(v.items[0])
    else ElementsText(v, k - 1) + ", " + Serialized(v.items[k - 1])
  }

  /** One member of a table: the key as it is (never quoted), " = " and
      the value. */
  function Member(v: Value, key: string): string
    requires v.Object? && NumberFree(v)
    decreases v, 0
  {
    key + " = " + (if key in v.fields then Serialized(v.fields[key]) else "")
  }

  /** The members at the first k keys, separated by ", ". */
  function MembersText(v: Value, keys: seq<string>, k: nat): string
    requires v.Object? && NumberFree(v) && k <= |keys|
    decreases v, 1, k
  {
    if k == 0 then ""
    else if k == 1 then Member(v, keys[0])
    else MembersText(v, keys, k - 1) + ", " + Member(v, keys[k - 1])
  }

  lemma EscapedSnoc(s: string, i: nat)
    requires i < |s|
    ensures Escaped(s[..i + 1]) == Escaped(s[..i]) + EscapedChar(s[i])
  {
    assert s[..i + 1] == s[..i] + [s[i]];
    EscapedAppend(s[..i], [s[i]]);
  }

  lemma {:induction false} EscapedAppend(a: string, b: string)
    ensures Escaped(a + b) == Escaped(a) + Escaped(b)
  {
    if a != [] {
      assert (a + b)[0] == a[0] && (a + b)[1..] == a[1..] + b;
      EscapedAppend(a[1..], b);
      assert Escaped(a + b) == EscapedChar(a[0]) + (Escaped(a[1..]) + Escaped(b));
    } else {
      assert a + b == b;
    }
  }

  /** The string case of serialize. */
  method WriteString(s: string, out: string) returns (r: string)
    ensures r == out + Quoted(s)
  {
    var start := out + "\"";
    r := start;
    var i := 0;
    while i < |s|
      invariant 0 <= i <= |s|
      invariant r == start + Escaped(s[..i])
    {
      var piece := WriteChar(s[i]);
      EscapedSnoc(s, i);
      Json.Assoc(start, Escaped(s[..i]), piece);
      r := r + piece;
      i := i + 1;
    }
    assert s[..i] == s;
    r := r + "\"";
    Json.Assoc(out, "\"" + Escaped(s), "\"");
    Json.Assoc(out, "\"", Escaped(s));
  }

  /** The switch on one char of the string case. */
  method WriteChar(ch: char) returns (piece: string)
    ensures piece == EscapedChar(ch)
  {
    var b := Byte(ch);
    if ch == '"' {
      piece := "\\\"";
    } else if ch == '\\' {
      piece := "\\\\";
    } else if ch == Json.BACKSPACE {
      piece := "\\b";
    } else if ch == Json.FORM_FEED {
      piece := "\\f";
    } else if ch == '\n' {
      piece := "\\n";
    } else if ch == '\r' {
      piece := "\\r";
    } else if ch == '\t' {
      piece := "\\t";
    } else if b < 0x20 || b > 0x7E {
      piece := "\\u00" + [Json.HexDigit(b / 16), Json.HexDigit(b % 16)];
    } else {
      piece := [ch];
    }
  }

  /** Value::serialize(out): appends the text of v to out. */
  method Serialize(v: Value, out: string) returns (r: string)
    requires NumberFree(v)
    ensures r == out + Serialized(v)
    decreases v, 2
  {
    match v
    case Null =>
      r := out + "null";
    case Bool(b) =>
      r := out + (if b then "true" else "false");
    case Str(s) =>
      r := WriteString(s, out);
    case Array(items) =>
      r := WriteElements(v, out + "[");
      r := r + "]";
      Json.Assoc(out, "[" + ElementsText(v, |items|), "]");
      Json.Assoc(out, "[", ElementsText(v, |items|));
    case Object(fields) =>
      r := WriteMembers(v, out + "{");
      r := r + "}";
      Json.Assoc(out, "{" + MembersText(v, TableKeys(fields), |fields|), "}");
      Json.Assoc(out, "{", MembersText(v, TableKeys(fields), |fields|));
  }

  /** The element loop of the array case. */
  method WriteElements(v: Value, out: string) returns (r: string)
    requires v.Array? && NumberFree(v)
    ensures r == out + ElementsText(v, |v.items|)
    decreases v, 1
  {
    r := out;
    var i := 0;
    while i < |v.items|
      invariant 0 <= i <= |v.items|
      invariant r == out + ElementsText(v, i)
    {
      var sep := if i > 0 then ", " else "";
      r := Serialize(v.items[i], r + sep);
      ElementsTextNext(v, i);
      Json.AppendAssoc(out, ElementsText(v, i), sep, Serialized(v.items[i]));
      i := i + 1;
    }
  }

  lemma ElementsTextNext(v: Value, i: nat)
    requires v.Array? && NumberFree(v) && i < |v.items|
    ensures ElementsText(v, i + 1) == ElementsText(v, i) + (if i > 0 then ", " else "") + Serialized(v.items[i])
  {
  }

  /** The member loop of the table case. */
  method WriteMembers(v: Value, out: string) returns (r: string)
    requires v.Object? && NumberFree(v)
    ensures r == out + MembersText(v, TableKeys(v.fields), |v.fields|)
    decreases v, 1
  {
    r := out;
    var keys := TableKeys(v.fields);
    var first := true;
    var i := 0;
    while i < |keys|
      invariant 0 <= i <= |keys| && (first <==> i == 0)
      invariant r == out + MembersText(v, keys, i)
    {
      var sep := if first then "" else ", ";
      first := false;
      r := WriteMember(v, keys, i, sep, out, r);
      i := i + 1;
    }
  }

  /** One pass of the member loop: the separator, the key, " = " and the
      serialized value. */
  method WriteMember(v: Value, keys: seq<string>, i: nat, sep: string, ghost out: string, r: string) returns (r2: string)
    requires v.Object? && NumberFree(v) && i < |keys| && keys[i] in v.fields
    requires r == out + MembersText(v, keys, i) && sep == (if i > 0 then ", " else "")
    ensures r2 == out + MembersText(v, keys, i + 1)
    decreases v, 0
  {
    r2 := r + sep + keys[i] + " = ";
    ghost var mid := r2;
    r2 := Serialize(v.fields[keys[i]], r2);
    MembersStep(v, keys, i, out, r, sep, mid, r2);
  }

  /** One pass of the member loop extends the text by the next member. */
  lemma MembersStep(v: Value, keys: seq<string>, i: nat, out: string, before: string, sep: string, mid: string, after: string)
    requires v.Object? && NumberFree(v) && i < |keys| && keys[i] in v.fields
    requires before == out + MembersText(v, keys, i) && sep == (if i > 0 then ", " else "")
    requires mid == before + sep + keys[i] + " = "
    requires after == mid + Serialized(v.fields[keys[i]])
    ensures after == out + MembersText(v, keys, i + 1)
  {
    var a, k, w := MembersText(v, keys, i), keys[i], Serialized(v.fields[keys[i]]);
    MembersTextNext(v, keys, i);
    Json.Assoc(out, a + sep + k + " = ", w);
    Json.Assoc(out, a + sep + k, " = ");
    Json.Assoc(out, a + sep, k);
    Json.Assoc(out, a, sep);
  }

  lemma MembersTextNext(v: Value, keys: seq<string>, i: nat)
    requires v.Object? && NumberFree(v) && i < |keys| && keys[i] in v.fields
    ensures MembersText(v, keys, i + 1) == MembersText(v, keys, i) + (if i > 0 then ", " else "") + keys[i] + " = " + Serialized(v.fields[keys[i]])
  {
  }

  // ---------------------------------------------------------------------
  // Parser: each parse_* as a function of the input and the cursor, giving
  // what it reads and the cursor after it, or the message of the exception

  datatype Parsed = Parsed(value: Value, pos: nat)

  const END_OF_INPUT := Json.END_OF_INPUT

  /** skip_whitespace_and_comments: white space, and each '#' comment up to
      the end of its line. */
  function SkipTrivia(input: string, pos: nat): (r: nat)
    requires pos <= |input|
    ensures pos <= r <= |input|
    ensures r < |input| ==> !IsSpace(input[r]) && input[r] != '#'
    decreases |input| - pos
  {
    if pos >= |input| then pos
    else if IsSpace(input[pos]) then SkipTrivia(input, pos + 1)
    else if input[pos] == '#' then SkipTrivia(input, ScanUntil(input, pos + 1, {'\n'}))
    else pos
  }

  /** parse_value: white space and comments, then the parser the first char
      selects; the non-standard literal null is tried last. */
  function ValueAt(input: string, pos: nat): (r: Result<Parsed>)
    requires pos <= |input|
    ensures r.Ok? ==> pos < r.value.pos <= |input|
    decreases |input| - pos, 1
  {
    var p := SkipTrivia(input, pos);
    if p >= |input| then Err(END_OF_INPUT)
    else
      var ch := input[p];
      if ch == 't' || ch == 'f' then BoolAt(input, p)
      else if Json.StartsNumber(ch) then NumberAt(input, p)
      else if ch == '"' || ch == '\'' then StringAt(input, p)
      else if ch == '[' then ArrayAt(input, p)
      else if ch == '{' then InlineTableAt(input, p)
      else if Substr(input, p, 4) == "null" then Ok(Parsed(Null, p + 4))
      else Err("Invalid TOML value")
  }

  function BoolAt(input: string, pos: nat): (r: Result<Parsed>)
    requires pos <= |input|
    ensures r.Ok? ==> pos < r.value.pos <= |input|
  {
    if Substr(input, pos, 4) == "true" then Ok(Parsed(Bool(true), pos + 4))
    else if Substr(input, pos, 5) == "false" then Ok(Parsed(Bool(false), pos + 5))
    else Err("Invalid boolean value")
  }

  /** parse_number scans what the JSON parser scans (sign, digits,
      fraction, exponent) and fails when std::stod finds no number there. */
  function NumberAt(input: string, pos: nat): (r: Result<Parsed>)
    requires pos < |input| && Json.StartsNumber(input[pos])
    ensures r.Ok? ==> pos < r.value.pos <= |input|
  {
    var e := Json.NumberEnd(input, pos);
    var lexeme := input[pos..e];
    if Json.HasMantissaDigit(lexeme) then Ok(Parsed(Number(lexeme), e)) else Err("Invalid number")
  }

  const STRING_START := "Expected '\"' or '\\'' at start of string"

  /** parse_string: a '"' or '\'' opens the string, and the same char
      closes it. */
  function StringAt(input: string, pos: nat): (r: Result<Parsed>)
    requires pos <= |input|
    ensures r.Ok? ==> pos < r.value.pos <= |input| && r.value.value.Str?
  {
    if pos >= |input| then Err(END_OF_INPUT)
    else if input[pos] != '"' && input[pos] != '\'' then Err(STRING_START)
    else StringBody(input, pos + 1, input[pos], "")
  }

  /** The loop of parse_string from pos, with the chars decoded so far:
      the escapes are decoded whichever quote opened the string, exactly as
      the JSON parser decodes them. */
  function StringBody(input: string, pos: nat, quote: char, acc: string): (r: Result<Parsed>)
    requires pos <= |input|
    ensures r.Ok? ==> pos < r.value.pos <= |input| && r.value.value.Str?
    decreases |input| - pos
  {
    if pos >= |input| then Err(END_OF_INPUT)
    else if input[pos] == quote then Ok(Parsed(Str(acc), pos + 1))
    else if input[pos] != '\\' then StringBody(input, pos + 1, quote, acc + [input[pos]])
    else match Json.EscapeAt(input, pos + 1)
      case Err(e) => Err(e)
      case Ok((c, next)) => StringBody(input, next, quote, acc + [c])
  }

  /** A char of a bare key. */
  predicate IsBareKeyChar(c: char) { IsAlnum(c) || c == '_' || c == '-' }

  /** The end of the run of bare-key chars from pos. */
  function BareKeyEnd(input: string, pos: nat): (e: nat)
    requires pos <= |input|
    ensures pos <= e <= |input|
    ensures forall k :: pos <= k < e ==> IsBareKeyChar(input[k])
    ensures e < |input| ==> !IsBareKeyChar(input[e])
    decreases |input| - pos
  {
    if pos < |input| && IsBareKeyChar(input[pos]) then BareKeyEnd(input, pos + 1) else pos
  }

  /** parse_key: a quoted key is read as a string; a bare key is a
      non-empty run of alphanumerics, '_' and '-'. */
  function KeyAt(input: string, pos: nat): (r: Result<(string, int)>)
    requires pos <= |input|
    ensures r.Ok? ==> pos < r.value.1 <= |input|
  {
    if pos >= |input| then Err(END_OF_INPUT)
    else if input[pos] == '"' || input[pos] == '\'' then
      match StringAt(input, pos)
      case Err(e) => Err(e)
      case Ok(key) => Ok((key.value.s, key.pos))
    else
      var e := BareKeyEnd(input, pos);
      if e == pos then Err("Invalid key") else Ok((input[pos..e], e))
  }

  /** parse_dotted_keys from pos, after the keys read so far: keys
      separated by '.', with white space and comments around each.  The
      cursor stops on the first char after the last key that is not a '.'. */
  function DottedKeysAt(input: string, pos: nat, keys: seq<string>): (r: Result<(seq<string>, int)>)
    requires pos <= |input|
    ensures r.Ok? ==> pos < r.value.1 < |input| && |r.value.0| > |keys| && input[r.value.1] != '.'
    decreases |input| - pos
  {
    var p := SkipTrivia(input, pos);
    match KeyAt(input, p)
    case Err(e) => Err(e)
    case Ok((key, next)) =>
      var q := SkipTrivia(input, next);
      if q >= |input| then Err(END_OF_INPUT)
      else if input[q] != '.' then Ok((keys + [key], q))
      else DottedKeysAt(input, q + 1, keys + [key])
  }

  const ARRAY_HEADER_END := "Expected ']]' for array of tables"

  /** parse_table_header's reading part: "[keys]" or "[[keys]]"; gives the
      keys, whether the header names an array of tables, and the position
      after the header. */
  function HeaderAt(input: string, pos: nat): (r: Result<(seq<string>, bool, int)>)
    requires pos <= |input|
    ensures r.Ok? ==> r.value.0 != [] && pos < r.value.2 <= |input|
  {
    if pos >= |input| then Err(END_OF_INPUT)
    else if input[pos] != '[' then Err("Expected '[' for table header")
    else if pos + 1 >= |input| then Err(END_OF_INPUT)
    else
      var isArray := input[pos + 1] == '[';
      match DottedKeysAt(input, if isArray then pos + 2 else pos + 1, [])
      case Err(e) => Err(e)
      case Ok((keys, q)) =>
        match HeaderCloseAt(input, q, isArray)
        case Err(e) => Err(e)
        case Ok(next) => Ok((keys, isArray, next))
  }

  /** The end of a header: "]]" after the keys of an array of tables, "]"
      after those of a table; with the position after it. */
  function HeaderCloseAt(input: string, pos: nat, isArray: bool): (r: Result<int>)
    requires pos <= |input|
    ensures r.Ok? ==> pos < r.value <= |input|
  {
    if pos >= |input| then Err(END_OF_INPUT)
    else if isArray then
      if input[pos] != ']' then Err(ARRAY_HEADER_END)
      else if pos + 1 >= |input| then Err(END_OF_INPUT)
      else if input[pos + 1] != ']' then Err(ARRAY_HEADER_END)
      else Ok(pos + 2)
    else if input[pos] != ']' then Err("Expected ']' for table header")
    else Ok(pos + 1)
  }

  /** White space and comments, the '=' after a key, and white space and
      comments again; with the position after them. */
  function EqualsAt(input: string, pos: nat, message: string): (r: Result<int>)
    requires pos <= |input|
    ensures r.Ok? ==> pos < r.value <= |input|
  {
    var s := SkipTrivia(input, pos);
    if s >= |input| then Err(END_OF_INPUT)
    else if input[s] != '=' then Err(message)
    else Ok(SkipTrivia(input, s + 1))
  }

  /** parse_key_value's reading part: the dotted keys, '=' and the value;
      with the position after the value. */
  function KeyValueAt(input: string, pos: nat): (r: Result<(seq<string>, Value, int)>)
    requires pos <= |input|
    ensures r.Ok? ==> r.value.0 != [] && pos < r.value.2 <= |input|
  {
    var p := SkipTrivia(input, pos);
    match DottedKeysAt(input, p, [])
    case Err(e) => Err(e)
    case Ok((keys, q)) =>
      match EqualsAt(input, q, "Expected '=' after key")
      case Err(e) => Err(e)
      case Ok(s) =>
        match ValueAt(input, s)
        case Err(e) => Err(e)
        case Ok(v) => Ok((keys, v.value, v.pos))
  }

  /** After an element or a member: white space and comments, then the
      closing char (true) or ',' and white space and comments (false),
      with the position after them. */
  function SeparatorAt(input: string, pos: nat, close: char, message: string): (r: Result<(bool, int)>)
    requires pos <= |input|
    ensures r.Ok? ==> pos < r.value.1 <= |input|
  {
    var s := SkipTrivia(input, pos);
    if s >= |input| then Err(END_OF_INPUT)
    else if input[s] == close then Ok((true, s + 1))
    else if input[s] != ',' then Err(message)
    else Ok((false, SkipTrivia(input, s + 1)))
  }

  const ARRAY_SEPARATOR := "Expected ',' or ']' in array"
  const TABLE_SEPARATOR := "Expected ',' or '}' in inline table"

  /** parse_array: '[', then "]" or the elements. */
  function ArrayAt(input: string, pos: nat): (r: Result<Parsed>)
    requires pos <= |input|
    ensures r.Ok? ==> pos < r.value.pos <= |input|
    decreases |input| - pos, 0
  {
    if pos >= |input| then Err(END_OF_INPUT)
    else if input[pos] != '[' then Err("Expected '[' at start of array")
    else
      var q := SkipTrivia(input, pos + 1);
      if q >= |input| then Err(END_OF_INPUT)
      else if input[q] == ']' then Ok(Parsed(Array([]), q + 1))
      else ElementsAt(input, q, [])
  }

  /** The element loop of parse_array at pos, with the elements so far. */
  function ElementsAt(input: string, pos: nat, items: seq<Value>): (r: Result<Parsed>)
    requires pos <= |input|
    ensures r.Ok? ==> pos < r.value.pos <= |input|
    decreases |input| - pos, 2
  {
    match ValueAt(input, pos)
    case Err(e) => Err(e)
    case Ok(element) => AfterElement(input, element.pos, items + [element.value])
  }

  /** After an element: ']' ends the array, ',' starts the next element. */
  function AfterElement(input: string, pos: nat, items: seq<Value>): (r: Result<Parsed>)
    requires pos <= |input|
    ensures r.Ok? ==> pos < r.value.pos <= |input|
    decreases |input| - pos, 2
  {
    match SeparatorAt(input, pos, ']', ARRAY_SEPARATOR)
    case Err(e) => Err(e)
    case Ok((closed, next)) =>
      if closed then Ok(Parsed(Array(items), next)) else ElementsAt(input, next, items)
  }

  /** parse_inline_table: '{', then "}" or the members. */
  function InlineTableAt(input: string, pos: nat): (r: Result<Parsed>)
    requires pos <= |input|
    ensures r.Ok? ==> pos < r.value.pos <= |input|
    decreases |input| - pos, 0
  {
    if pos >= |input| then Err(END_OF_INPUT)
    else if input[pos] != '{' then Err("Expected '{' at start of inline table")
    else
      var q := SkipTrivia(input, pos + 1);
      if q >= |input| then Err(END_OF_INPUT)
      else if input[q] == '}' then Ok(Parsed(Object(map[]), q + 1))
      else MembersAt(input, q, map[])
  }

  /** The member loop of parse_inline_table at pos, with the members so
      far; a key read again replaces the earlier value. */
  function MembersAt(input: string, pos: nat, fields: map<string, Value>): (r: Result<Parsed>)
    requires pos <= |input|
    ensures r.Ok? ==> pos < r.value.pos <= |input|
    decreases |input| - pos, 2
  {
    match MemberAt(input, pos)
    case Err(e) => Err(e)
    case Ok((key, value, next)) => AfterMember(input, next, fields[key := value])
  }

  /** One member: a single (not dotted) key, '=' and the value; with the
      position after the value. */
  function MemberAt(input: string, pos: nat): (r: Result<(string, Value, int)>)
    requires pos <= |input|
    ensures r.Ok? ==> pos < r.value.2 <= |input|
    decreases |input| - pos, 1
  {
    var p := SkipTrivia(input, pos);
    match KeyAt(input, p)
    case Err(e) => Err(e)
    case Ok((key, next)) =>
      match EqualsAt(input, next, "Expected '=' after key in inline table")
      case Err(e) => Err(e)
      case Ok(t) =>
        match ValueAt(input, t)
        case Err(e) => Err(e)
        case Ok(member) => Ok((key, member.value, member.pos))
  }

  /** After a member: '}' ends the table, ',' starts the next member. */
  function AfterMember(input: string, pos: nat, fields: map<string, Value>): (r: Result<Parsed>)
    requires pos <= |input|
    ensures r.Ok? ==> pos < r.value.pos <= |input|
    decreases |input| - pos, 2
  {
    match SeparatorAt(input, pos, '}', TABLE_SEPARATOR)
    case Err(e) => Err(e)
    case Ok((closed, next)) =>
      if closed then Ok(Parsed(Object(fields), next)) else MembersAt(input, next, fields)
  }

  // ---------------------------------------------------------------------
  // The document's tables.  The source keeps a pointer to the current
  // table inside the root; the model keeps the path to it.

  /** One step down from a table: into the table at a key, or into the last
      table of the array at a key (an array of tables). */
  datatype Step = Into(key: string) | Appended(key: string)

  function Last<T>(s: seq<T>): T
    requires s != []
  {
    s[|s| - 1]
  }

  /** The path leads through existing tables of t. */
  predicate Valid(t: map<string, Value>, path: seq<Step>)
    decreases path
  {
    path == [] ||
    match path[0]
    case Into(k) => k in t && t[k].Object? && Valid(t[k].fields, path[1..])
    case Appended(k) =>
      k in t && t[k].Array? && t[k].items != [] && Last(t[k].items).Object?
      && Valid(Last(t[k].items).fields, path[1..])
  }

  /** The table the path leads to. */
  function TableAt(t: map<string, Value>, path: seq<Step>): map<string, Value>
    requires Valid(t, path)
    decreases path
  {
    if path == [] then t
    else match path[0]
      case Into(k) => TableAt(t[k].fields, path[1..])
      case Appended(k) => TableAt(Last(t[k].items).fields, path[1..])
  }

  /** The value at a dotted key, following tables; None when a key is
      missing or a value on the way is not a table. */
  function Lookup(t: map<string, Value>, keys: seq<string>): Option<Value>
    requires keys != []
    decreases |keys|
  {
    var k := keys[0];
    if k !in t then None
    else if |keys| == 1 then Some(t[k])
    else if t[k].Object? then Lookup(t[k].fields, keys[1..])
    else None
  }

  /** The table at key k, or a fresh one when there is none or the value
      there is not a table (which the source then overwrites). */
  function Child(t: map<string, Value>, k: string): map<string, Value> {
    if k in t && t[k].Object? then t[k].fields else map[]
  }

  /** The array at key k, or a fresh one when the value there is not an
      array. */
  function Items(t: map<string, Value>, k: string): seq<Value> {
    if k in t && t[k].Array? then t[k].items else []
  }

  /** The assignment loop of parse_key_value: every key but the last names
      a table, created (or replacing a non-table) when needed, and the last
      key gets the value, overwriting what was there. */
  function SetIn(t: map<string, Value>, keys: seq<string>, v: Value): (r: map<string, Value>)
    requires keys != []
    ensures keys[0] in r && r.Keys == t.Keys + {keys[0]}
    ensures forall k :: k in t && k != keys[0] ==> r[k] == t[k]
    decreases |keys|
  {
    if |keys| == 1 then t[keys[0] := v]
    else t[keys[0] := Object(SetIn(Child(t, keys[0]), keys[1..], v))]
  }

  /** parse_key_value's write into the current table: the table the path
      leads to gets the dotted key. */
  function AssignAt(t: map<string, Value>, path: seq<Step>, keys: seq<string>, v: Value): (r: map<string, Value>)
    requires Valid(t, path) && keys != []
    ensures Valid(r, path)
    decreases path
  {
    if path == [] then SetIn(t, keys, v)
    else match path[0]
      case Into(k) =>
        t[k := Object(AssignAt(t[k].fields, path[1..], keys, v))]
      case Appended(k) =>
        var items := t[k].items;
        var n := |items| - 1;
        var inner := AssignAt(items[n].fields, path[1..], keys, v);
        assert Last(items[..n] + [Object(inner)]) == Object(inner);
        t[k := Array(items[..n] + [Object(inner)])]
  }

  /** The path of the table a header names. */
  function HeaderPath(keys: seq<string>, isArray: bool): (path: seq<Step>)
    requires keys != []
    ensures |path| == |keys|
    decreases |keys|
  {
    if |keys| == 1 then [if isArray then Appended(keys[0]) else Into(keys[0])]
    else [Into(keys[0])] + HeaderPath(keys[1..], isArray)
  }

  /** parse_table_header's walk: every key but the last names a table,
      created or replacing a non-table; for "[keys]" the last key names a
      table too (an existing one is re-entered), for "[[keys]]" it names an
      array (a non-array is replaced) to which a fresh table is appended. */
  function Open(t: map<string, Value>, keys: seq<string>, isArray: bool): (r: map<string, Value>)
    requires keys != []
    ensures Valid(r, HeaderPath(keys, isArray))
    ensures r.Keys == t.Keys + {keys[0]}
    ensures forall k :: k in t && k != keys[0] ==> r[k] == t[k]
    decreases |keys|
  {
    var k := keys[0];
    if |keys| == 1 then
      if isArray then
        var items := Items(t, k) + [Object(map[])];
        assert Last(items) == Object(map[]);
        t[k := Array(items)]
      else t[k := Object(Child(t, k))]
    else
      var r := t[k := Object(Open(Child(t, k), keys[1..], isArray))];
      assert HeaderPath(keys, isArray)[1..] == HeaderPath(keys[1..], isArray);
      r
  }

  /** Parser::parse from pos, with the tables built so far and the path of
      the current table: until the end of the input, a '[' starts a table
      header and anything else a key/value line. */
  function DocumentAt(input: string, pos: nat, root: map<string, Value>, path: seq<Step>): (r: Result<map<string, Value>>)
    requires pos <= |input| && Valid(root, path)
    decreases |input| - pos
  {
    var p := SkipTrivia(input, pos);
    if p >= |input| then Ok(root)
    else if input[p] == '[' then
      match HeaderAt(input, p)
      case Err(e) => Err(e)
      case Ok((keys, isArray, next)) =>
        DocumentAt(input, next, Open(root, keys, isArray), HeaderPath(keys, isArray))
    else
      match KeyValueAt(input, p)
      case Err(e) => Err(e)
      case Ok((keys, value, next)) => DocumentAt(input, next, AssignAt(root, path, keys, value), path)
  }

  /** Parser::deserialize: the root table of the document. */
  function Deserialized(input: string): (r: Result<Value>)
    ensures r.Ok? ==> r.value.Object?
  {
    match DocumentAt(input, 0, map[], [])
    case Err(e) => Err(e)
    case Ok(root) => Ok(Object(root))
  }

  /** A parse_* method returned r and left the cursor at pos, as the
      function s says. */
  predicate Agrees(r: Result<Value>, pos: nat, s: Result<Parsed>) {
    match s
    case Ok(p) => r == Ok(p.value) && pos == p.pos
    case Err(e) => r == Err(e)
  }

  // ---------------------------------------------------------------------
  // The Parser class: the input and the _pos cursor

  class Parser {
    const input: string
    var pos: nat

    constructor(input: string)
      ensures this.input == input && pos == 0
    {
      this.input := input;
      pos := 0;
    }

    method SkipWhitespaceAndComments()
      requires pos <= |input|
      modifies this
      ensures pos == SkipTrivia(input, old(pos))
    {
      while pos < |input|
        invariant old(pos) <= pos <= |input|
        invariant SkipTrivia(input, pos) == SkipTrivia(input, old(pos))
        decreases |input| - pos
      {
        if IsSpace(input[pos]) {
          pos := pos + 1;
        } else if input[pos] == '#' {
          ghost var start := pos;
          pos := pos + 1;
          while pos < |input| && input[pos] != '\n'
            invariant start < pos <= |input|
            invariant ScanUntil(input, pos, {'\n'}) == ScanUntil(input, start + 1, {'\n'})
            decreases |input| - pos
          {
            pos := pos + 1;
          }
        } else {
          break;
        }
      }
    }

    method Peek() returns (r: Result<char>)
      requires pos <= |input|
      ensures r == Json.CharAt(input, pos)
    {
      if pos >= |input| {
        return Err(END_OF_INPUT);
      }
      return Ok(input[pos]);
    }

    method Get() returns (r: Result<char>)
      requires pos <= |input|
      modifies this
      ensures r == Json.CharAt(input, old(pos))
      ensures pos == if old(pos) < |input| then old(pos) + 1 else old(pos)
    {
      if pos >= |input| {
        return Err(END_OF_INPUT);
      }
      r := Ok(input[pos]);
      pos := pos + 1;
    }

    method ParseValue() returns (r: Result<Value>)
      requires pos <= |input|
      modifies this
      ensures pos <= |input| && Agrees(r, pos, ValueAt(input, old(pos)))
      decreases |input| - pos, 1
    {
      SkipWhitespaceAndComments();
      var ch := Peek();
      if ch.Err? {
        return Err(ch.error);
      }
      var c := ch.value;
      if c == 't' || c == 'f' {
        r := ParseBool();
      } else if c == '-' || IsDigit(c) {
        r := ParseNumber();
      } else if c == '"' || c == '\'' {
        r := ParseString();
      } else if c == '[' {
        r := ParseArray();
      } else if c == '{' {
        r := ParseInlineTable();
      } else if Substr(input, pos, 4) == "null" {
        pos := pos + 4;
        r := Ok(Null);
      } else {
        r := Err("Invalid TOML value");
      }
    }

    method ParseBool() returns (r: Result<Value>)
      requires pos <= |input|
      modifies this
      ensures pos <= |input| && Agrees(r, pos, BoolAt(input, old(pos)))
    {
      if Substr(input, pos, 4) == "true" {
        pos := pos + 4;
        return Ok(Bool(true));
      } else if Substr(input, pos, 5) == "false" {
        pos := pos + 5;
        return Ok(Bool(false));
      }
      return Err("Invalid boolean value");
    }

    /** A run of digits from pos. */
    method SkipDigits()
      requires pos <= |input|
      modifies this
      ensures pos == old(pos) + DigitRun(input, old(pos), 10)
    {
      while pos < |input| && IsDigit(input[pos])
        invariant old(pos) <= pos <= |input|
        invariant old(pos) + DigitRun(input, old(pos), 10) == pos + DigitRun(input, pos, 10)
        decreases |input| - pos
      {
        pos := pos + 1;
      }
    }

    /** The scan of parse_number: sign, digits, fraction, exponent. */
    method SkipNumber()
      requires pos < |input|
      modifies this
      ensures pos == Json.NumberEnd(input, old(pos))
    {
      ghost var start := pos;
      if input[pos] == '-' {
        pos := pos + 1;
      }
      ghost var a := pos;
      assert a == if input[start] == '-' then start + 1 else start;
      SkipDigits();
      ghost var b := pos;
      SkipFraction();
      ghost var c := pos;
      SkipExponent();
      assert b == a + DigitRun(input, a, 10) && c == Json.FractionEnd(input, b) && pos == Json.ExponentEnd(input, c);
    }

    /** An optional '.' and digits. */
    method SkipFraction()
      requires pos <= |input|
      modifies this
      ensures pos == Json.FractionEnd(input, old(pos))
    {
      if pos < |input| && input[pos] == '.' {
        pos := pos + 1;
        SkipDigits();
      }
    }

    /** An optional 'e' or 'E', sign and digits. */
    method SkipExponent()
      requires pos <= |input|
      modifies this
      ensures pos == Json.ExponentEnd(input, old(pos))
    {
      if pos < |input| && (input[pos] == 'e' || input[pos] == 'E') {
        pos := pos + 1;
        if pos < |input| && (input[pos] == '+' || input[pos] == '-') {
          pos := pos + 1;
        }
        SkipDigits();
      }
    }

    method ParseNumber() returns (r: Result<Value>)
      requires pos < |input| && Json.StartsNumber(input[pos])
      modifies this
      ensures pos <= |input| && Agrees(r, pos, NumberAt(input, old(pos)))
    {
      var start := pos;
      SkipNumber();
      var lexeme := input[start..pos];
      if Json.HasMantissaDigit(lexeme) {
        return Ok(Number(lexeme));
      }
      return Err("Invalid number");
    }

    method ParseString() returns (r: Result<Value>)
      requires pos <= |input|
      modifies this
      ensures pos <= |input| && Agrees(r, pos, StringAt(input, old(pos)))
      ensures r.Ok? ==> r.value.Str?
    {
      var open := Get();
      if open.Err? {
        return Err(open.error);
      }
      var quote := open.value;
      if quote != '"' && quote != '\'' {
        return Err(STRING_START);
      }
      var result := "";
      while true
        invariant old(pos) < pos <= |input|
        invariant StringBody(input, pos, quote, result) == StringAt(input, old(pos))
        decreases |input| - pos
      {
        var ch := Get();
        if ch.Err? {
          return Err(ch.error);
        }
        if ch.value == quote {
          return Ok(Str(result));
        } else if ch.value == '\\' {
          var c := ReadEscape();
          if c.Err? {
            return Err(c.error);
          }
          result := result + [c.value];
        } else {
          result := result + [ch.value];
        }
      }
    }

    /** The escape after a backslash, "\\uXXXX" read as four Get() calls. */
    method ReadEscape() returns (r: Result<char>)
      requires pos <= |input|
      modifies this
      ensures pos <= |input|
      ensures match Json.EscapeAt(input, old(pos))
        case Ok((c, next)) => r == Ok(c) && pos == next
        case Err(e) => r == Err(e)
    {
      var esc := Get();
      if esc.Err? {
        return Err(esc.error);
      }
      if esc.value == 'u' {
        var hex := "";
        var i := 0;
        while i < 4
          invariant 0 <= i <= 4 && pos == old(pos) + 1 + i <= |input| && hex == input[old(pos) + 1..pos]
          decreases 4 - i
        {
          var h := Get();
          if h.Err? {
            return Err(h.error);
          }
          hex := hex + [h.value];
          i := i + 1;
        }
        var code := Json.UnicodeCode(hex);
        if code.None? {
          return Err("stoi");
        }
        if code.value > 0x7F {
          return Err("Unicode characters > 0x7F not supported");
        }
        return Ok(code.value as char);
      }
      var c := Json.ShortEscape(esc.value);
      if c.None? {
        return Err("Invalid escape sequence");
      }
      return Ok(c.value);
    }

    method ParseKey() returns (r: Result<string>)
      requires pos <= |input|
      modifies this
      ensures pos <= |input|
      ensures match KeyAt(input, old(pos))
        case Ok((key, next)) => r == Ok(key) && pos == next
        case Err(e) => r == Err(e)
    {
      var ch := Peek();
      if ch.Err? {
        return Err(ch.error);
      }
      if ch.value == '"' || ch.value == '\'' {
        var key := ParseString();
        if key.Err? {
          return Err(key.error);
        }
        return Ok(key.value.s);
      }
      var start := pos;
      var key := "";
      while pos < |input| && IsBareKeyChar(input[pos])
        invariant start <= pos <= |input| && key == input[start..pos]
        invariant BareKeyEnd(input, pos) == BareKeyEnd(input, start)
        decreases |input| - pos
      {
        key := key + [input[pos]];
        pos := pos + 1;
      }
      if key == [] {
        return Err("Invalid key");
      }
      return Ok(key);
    }

    method ParseDottedKeys() returns (r: Result<seq<string>>)
      requires pos <= |input|
      modifies this
      ensures pos <= |input|
      ensures match DottedKeysAt(input, old(pos), [])
        case Ok((keys, next)) => r == Ok(keys) && pos == next
        case Err(e) => r == Err(e)
    {
      var keys: seq<string> := [];
      while true
        invariant pos <= |input|
        invariant DottedKeysAt(input, pos, keys) == DottedKeysAt(input, old(pos), [])
        decreases |input| - pos
      {
        SkipWhitespaceAndComments();
        var key := ParseKey();
        if key.Err? {
          return Err(key.error);
        }
        keys := keys + [key.value];
        SkipWhitespaceAndComments();
        var ch := Peek();
        if ch.Err? {
          return Err(ch.error);
        }
        if ch.value != '.' {
          return Ok(keys);
        }
        pos := pos + 1;
      }
    }

    /** parse_table_header(root): reads the header and walks (creating)
        the tables it names; the new root and the path of the table the
        source's returned pointer designates. */
    method ParseTableHeader(root: map<string, Value>) returns (r: Result<(map<string, Value>, seq<Step>)>)
      requires pos <= |input|
      modifies this
      ensures pos <= |input|
      ensures match HeaderAt(input, old(pos))
        case Ok((keys, isArray, next)) =>
          r == Ok((Open(root, keys, isArray), HeaderPath(keys, isArray))) && pos == next
        case Err(e) => r == Err(e)
    {
      var open := Get();
      if open.Err? {
        return Err(open.error);
      }
      if open.value != '[' {
        return Err("Expected '[' for table header");
      }
      var second := Peek();
      if second.Err? {
        return Err(second.error);
      }
      var isArray := second.value == '[';
      if isArray {
        pos := pos + 1;
      }
      var keys := ParseDottedKeys();
      if keys.Err? {
        return Err(keys.error);
      }
      var closed := ReadHeaderClose(isArray);
      if closed.Err? {
        return Err(closed.error);
      }
      return Ok((Open(root, keys.value, isArray), HeaderPath(keys.value, isArray)));
    }

    /** The "]]" or "]" check of parse_table_header. */
    method ReadHeaderClose(isArray: bool) returns (r: Result<()>)
      requires pos <= |input|
      modifies this
      ensures pos <= |input|
      ensures match HeaderCloseAt(input, old(pos), isArray)
        case Ok(next) => r.Ok? && pos == next
        case Err(e) => r == Err(e)
    {
      if isArray {
        var c1 := Get();
        if c1.Err? {
          return Err(c1.error);
        }
        if c1.value != ']' {
          return Err(ARRAY_HEADER_END);
        }
        var c2 := Get();
        if c2.Err? {
          return Err(c2.error);
        }
        if c2.value != ']' {
          return Err(ARRAY_HEADER_END);
        }
      } else {
        var c := Get();
        if c.Err? {
          return Err(c.error);
        }
        if c.value != ']' {
          return Err("Expected ']' for table header");
        }
      }
      return Ok(());
    }

    /** The '=' between a key and its value, with the white space and
        comments around it. */
    method ReadEquals(message: string) returns (r: Result<()>)
      requires pos <= |input|
      modifies this
      ensures pos <= |input|
      ensures match EqualsAt(input, old(pos), message)
        case Ok(next) => r.Ok? && pos == next
        case Err(e) => r == Err(e)
    {
      SkipWhitespaceAndComments();
      var eq := Get();
      if eq.Err? {
        return Err(eq.error);
      }
      if eq.value != '=' {
        return Err(message);
      }
      SkipWhitespaceAndComments();
      return Ok(());
    }

    /** parse_key_value(*current_table): reads the line and assigns the
        value in the table the path leads to. */
    method ParseKeyValue(root: map<string, Value>, path: seq<Step>) returns (r: Result<map<string, Value>>)
      requires pos <= |input| && Valid(root, path)
      modifies this
      ensures pos <= |input|
      ensures match KeyValueAt(input, old(pos))
        case Ok((keys, value, next)) => r == Ok(AssignAt(root, path, keys, value)) && pos == next
        case Err(e) => r == Err(e)
    {
      SkipWhitespaceAndComments();
      var keys := ParseDottedKeys();
      if keys.Err? {
        return Err(keys.error);
      }
      var eq := ReadEquals("Expected '=' after key");
      if eq.Err? {
        return Err(eq.error);
      }
      var value := ParseValue();
      if value.Err? {
        return Err(value.error);
      }
      return Ok(AssignAt(root, path, keys.value, value.value));
    }

    /** The separator after an element or a member, as SeparatorAt says. */
    method ReadSeparator(close: char, message: string) returns (r: Result<bool>)
      requires pos <= |input|
      modifies this
      ensures pos <= |input|
      ensures match SeparatorAt(input, old(pos), close, message)
        case Ok((closed, next)) => r == Ok(closed) && pos == next
        case Err(e) => r == Err(e)
    {
      SkipWhitespaceAndComments();
      var sep := Get();
      if sep.Err? {
        return Err(sep.error);
      }
      if sep.value == close {
        return Ok(true);
      } else if sep.value != ',' {
        return Err(message);
      }
      SkipWhitespaceAndComments();
      return Ok(false);
    }

    method ParseArray() returns (r: Result<Value>)
      requires pos <= |input|
      modifies this
      ensures pos <= |input| && Agrees(r, pos, ArrayAt(input, old(pos)))
      decreases |input| - pos, 0
    {
      var open := Get();
      if open.Err? {
        return Err(open.error);
      }
      if open.value != '[' {
        return Err("Expected '[' at start of array");
      }
      SkipWhitespaceAndComments();
      var ch := Peek();
      if ch.Err? {
        return Err(ch.error);
      }
      if ch.value == ']' {
        pos := pos + 1;
        return Ok(Array([]));
      }
      var items: seq<Value> := [];
      while true
        invariant old(pos) < pos <= |input|
        invariant ElementsAt(input, pos, items) == ArrayAt(input, old(pos))
        decreases |input| - pos
      {
        var element := ParseValue();
        if element.Err? {
          return Err(element.error);
        }
        items := items + [element.value];
        var closed := ReadSeparator(']', ARRAY_SEPARATOR);
        if closed.Err? {
          return Err(closed.error);
        }
        if closed.value {
          return Ok(Array(items));
        }
      }
    }

    method ParseInlineTable() returns (r: Result<Value>)
      requires pos <= |input|
      modifies this
      ensures pos <= |input| && Agrees(r, pos, InlineTableAt(input, old(pos)))
      decreases |input| - pos, 0
    {
      var open := Get();
      if open.Err? {
        return Err(open.error);
      }
      if open.value != '{' {
        return Err("Expected '{' at start of inline table");
      }
      SkipWhitespaceAndComments();
      var ch := Peek();
      if ch.Err? {
        return Err(ch.error);
      }
      if ch.value == '}' {
        pos := pos + 1;
        return Ok(Object(map[]));
      }
      var fields: map<string, Value> := map[];
      while true
        invariant old(pos) < pos <= |input|
        invariant MembersAt(input, pos, fields) == InlineTableAt(input, old(pos))
        decreases |input| - pos
      {
        var member := ParseMember();
        if member.Err? {
          return Err(member.error);
        }
        fields := fields[member.value.0 := member.value.1];
        var closed := ReadSeparator('}', TABLE_SEPARATOR);
        if closed.Err? {
          return Err(closed.error);
        }
        if closed.value {
          return Ok(Object(fields));
        }
      }
    }

    /** One pass of the member loop up to the separator: the key and the
        value. */
    method ParseMember() returns (r: Result<(string, Value)>)
      requires pos <= |input|
      modifies this
      ensures pos <= |input|
      ensures match MemberAt(input, old(pos))
        case Ok((key, value, next)) => r == Ok((key, value)) && pos == next
        case Err(e) => r == Err(e)
      decreases |input| - pos, 2
    {
      SkipWhitespaceAndComments();
      var key := ParseKey();
      if key.Err? {
        return Err(key.error);
      }
      var eq := ReadEquals("Expected '=' after key in inline table");
      if eq.Err? {
        return Err(eq.error);
      }
      var value := ParseValue();
      if value.Err? {
        return Err(value.error);
      }
      return Ok((key.value, value.value));
    }

    /** Parser::parse: the root table and the path of the current table,
        updated by each header and each key/value line. */
    method Parse() returns (r: Result<Value>)
      requires pos <= |input|
      modifies this
      ensures r == match DocumentAt(input, old(pos), map[], [])
        case Ok(root) => Ok(Object(root))
        case Err(e) => Err(e)
    {
      var root: map<string, Value> := map[];
      var current: seq<Step> := [];
      while pos < |input|
        invariant pos <= |input| && Valid(root, current)
        invariant DocumentAt(input, pos, root, current) == DocumentAt(input, old(pos), map[], [])
        decreases |input| - pos
      {
        SkipWhitespaceAndComments();
        if pos >= |input| {
          break;
        }
        if input[pos] == '[' {
          var header := ParseTableHeader(root);
          if header.Err? {
            return Err(header.error);
          }
          root, current := header.value.0, header.value.1;
        } else {
          var table := ParseKeyValue(root, current);
          if table.Err? {
            return Err(table.error);
          }
          root := table.value;
        }
      }
      return Ok(Object(root));
    }
  }

  /** Parser::deserialize. */
  method Deserialize(input: string) returns (r: Result<Value>)
    ensures r == Deserialized(input)
  {
    var parser := new Parser(input);
    r := parser.Parse();
  }
}
