/** The JSON value codec of parsers/json/json.hpp: Value::serialize and the
    cursor-based recursive-descent Parser. */
module Json {
  import opened Wrappers
  import opened Chars
  import opened StdString
  import opened StdMap

  /** json::Value.  A number keeps the text parse_number scanned: its
      floating-point value is not modelled. */
  datatype Value =
    | Null
    | Bool(b: bool)
    | Number(lexeme: string)
    | Str(s: string)
    | Array(items: seq<Value>)
    | Object(fields: map<string, Value>)

  /** A value with no number anywhere inside it. */
  predicate NumberFree(v: Value)
    decreases v
  {
    match v
    case Number(_) => false
    case Array(items) => forall i :: 0 <= i < |items| ==> NumberFree(items[i])
    case Object(fields) => forall k :: k in fields ==> NumberFree(fields[k])
    case _ => true
  }

  const BACKSPACE: char := 8 as char
  const FORM_FEED: char := 12 as char

  // ---------------------------------------------------------------------
  // Value::serialize

  function HexDigit(d: nat): (c: char)
    requires d < 16
    ensures IsHexDigit(c) && HexValue(c) == d
  {
    "0123456789abcdef"[d]
  }

  /** What serialize writes for one char of a string: the short escapes,
      \u00xx (lower-case hex, as "%04x" prints it) for the other control
      chars, and the char itself otherwise. */
  function EscapedChar(c: char): (r: string)
    ensures r != [] && (r[0] == '\\' <==> c == '\\' || c == '"' || c as int < 0x20)
    ensures c != '"' && c != '\\' && c as int >= 0x20 ==> r == [c]
  {
    if c == '"' then "\\\""
    else if c == '\\' then "\\\\"
    else if c == BACKSPACE then "\\b"
    else if c == FORM_FEED then "\\f"
    else if c == '\n' then "\\n"
    else if c == '\r' then "\\r"
    else if c == '\t' then "\\t"
    else if c as int < 0x20 then "\\u00" + [HexDigit(c as int / 16), HexDigit(c as int % 16)]
    else [c]
  }

  /** The escaped body of a serialized string. */
  function Escaped(s: string): string {
    if s == [] then [] else EscapedChar(s[0]) + Escaped(s[1..])
  }

  function Quoted(s: string): string {
    "\"" + Escaped(s) + "\""
  }

  /** The keys of an object in the order the model visits them (the source
      visits an unordered_map; any order serializes to text that parses
      back, see MembersRead in JsonRoundTrip). */
  function ObjectKeys(fields: map<string, Value>): (keys: seq<string>)
    ensures |keys| == |fields|
    ensures forall k :: k in fields <==> k in keys
    ensures forall i, j :: 0 <= i < j < |keys| ==> keys[i] != keys[j]
  {
    SortedKeys(fields.Keys)
  }

  function Serialized(v: Value): string
    requires NumberFree(v)
    decreases v, 2
  {
    match v
    case Null => "null"
    case Bool(b) => if b then "true" else "false"
    case Str(s) => Quoted(s)
    case Array(items) => "[" + ElementsText(v, |items|) + "]"
    case Object(fields) => "{" + MembersText(v, ObjectKeys(fields), |fields|) + "}"
  }

  /** The first k array elements, separated by ','. */
  function ElementsText(v: Value, k: nat): string
    requires v.Array? && NumberFree(v) && k <= |v.items|
    decreases v, 1, k
  {
    if k == 0 then ""
    else if k == 1 then Serialized(v.items[0])
    else ElementsText(v, k - 1) + "," + Serialized(v.items[k - 1])
  }

  /** One member of an object: the key as a string, ':' and the value
      (only keys of the object are ever written). */
  function Member(v: Value, key: string): string
    requires v.Object? && NumberFree(v)
    decreases v, 0
  {
    Quoted(key) + ":" + (if key in v.fields then Serialized(v.fields[key]) else "")
  }

  /** The members at the first k keys, separated by ','. */
  function MembersText(v: Value, keys: seq<string>, k: nat): string
    requires v.Object? && NumberFree(v) && k <= |keys|
    decreases v, 1, k
  {
    if k == 0 then ""
    else if k == 1 then Member(v, keys[0])
    else MembersText(v, keys, k - 1) + "," + Member(v, keys[k - 1])
  }

  lemma EscapedSnoc(s: string, i: nat)
    requires i < |s|
    ensures Escaped(s[..i + 1]) == Escaped(s[..i]) + EscapedChar(s[i])
  {
    assert s[..i + 1] == s[..i] + [s[i]];
    EscapedAppend(s[..i], [s[i]]);
  }

  lemma {:induction false} EscapedAppend(a: string, b: string)
    ensures Escaped(a + b) == Escaped(a) + Escaped(b)
  {
    if a != [] {
      assert (a + b)[0] == a[0] && (a + b)[1..] == a[1..] + b;
      EscapedAppend(a[1..], b);
      assert Escaped(a + b) == EscapedChar(a[0]) + (Escaped(a[1..]) + Escaped(b));
    } else {
      assert a + b == b;
    }
  }

  /** The string case of serialize. */
  method WriteString(s: string, out: string) returns (r: string)
    ensures r == out + Quoted(s)
  {
    var start := out + "\"";
    r := start;
    var i := 0;
    while i < |s|
      invariant 0 <= i <= |s|
      invariant r == start + Escaped(s[..i])
    {
      var piece := WriteChar(s[i]);
      EscapedSnoc(s, i);
      Assoc(start, Escaped(s[..i]), piece);
      r := r + piece;
      i := i + 1;
    }
    assert s[..i] == s;
    r := r + "\"";
    Assoc(out, "\"" + Escaped(s), "\"");
    Assoc(out, "\"", Escaped(s));
  }

  /** The switch on one char of the string case. */
  method WriteChar(ch: char) returns (piece: string)
    ensures piece == EscapedChar(ch)
  {
    if ch == '"' {
      piece := "\\\"";
    } else if ch == '\\' {
      piece := "\\\\";
    } else if ch == BACKSPACE {
      piece := "\\b";
    } else if ch == FORM_FEED {
      piece := "\\f";
    } else if ch == '\n' {
      piece := "\\n";
    } else if ch == '\r' {
      piece := "\\r";
    } else if ch == '\t' {
      piece := "\\t";
    } else if ch as int < 0x20 {
      piece := "\\u00" + [HexDigit(ch as int / 16), HexDigit(ch as int % 16)];
    } else {
      piece := [ch];
    }
  }

  /** Value::serialize(out): appends the text of v to out. */
  method Serialize(v: Value, out: string) returns (r: string)
    requires NumberFree(v)
    ensures r == out + Serialized(v)
    decreases v, 2
  {
    match v
    case Null =>
      r := out + "null";
    case Bool(b) =>
      r := out + (if b then "true" else "false");
    case Str(s) =>
      r := WriteString(s, out);
    case Array(items) =>
      r := WriteElements(v, out + "[");
      r := r + "]";
      Assoc(out, "[" + ElementsText(v, |items|), "]");
      Assoc(out, "[", ElementsText(v, |items|));
    case Object(fields) =>
      r := WriteMembers(v, out + "{");
      r := r + "}";
      Assoc(out, "{" + MembersText(v, ObjectKeys(fields), |fields|), "}");
      Assoc(out, "{", MembersText(v, ObjectKeys(fields), |fields|));
  }

  /** The element loop of the array case. */
  method WriteElements(v: Value, out: string) returns (r: string)
    requires v.Array? && NumberFree(v)
    ensures r == out + ElementsText(v, |v.items|)
    decreases v, 1
  {
    r := out;
    var i := 0;
    while i < |v.items|
      invariant 0 <= i <= |v.items|
      invariant r == out + ElementsText(v, i)
    {
      var sep := if i > 0 then "," else "";
      r := Serialize(v.items[i], r + sep);
      ElementsTextNext(v, i);
      AppendAssoc(out, ElementsText(v, i), sep, Serialized(v.items[i]));
      i := i + 1;
    }
  }

  lemma Assoc(a: string, b: string, c: string)
    ensures a + (b + c) == a + b + c
  {
  }

  lemma AppendAssoc(a: string, b: string, c: string, d: string)
    ensures a + b + c + d == a + (b + c + d)
  {
  }

  lemma ElementsTextNext(v: Value, i: nat)
    requires v.Array? && NumberFree(v) && i < |v.items|
    ensures ElementsText(v, i + 1) == ElementsText(v, i) + (if i > 0 then "," else "") + Serialized(v.items[i])
  {
  }

  /** The member loop of the object case. */
  method WriteMembers(v: Value, out: string) returns (r: string)
    requires v.Object? && NumberFree(v)
    ensures r == out + MembersText(v, ObjectKeys(v.fields), |v.fields|)
    decreases v, 1
  {
    r := out;
    var keys := ObjectKeys(v.fields);
    var first := true;
    var i := 0;
    while i < |keys|
      invariant 0 <= i <= |keys| && (first <==> i == 0)
      invariant r == out + MembersText(v, keys, i)
    {
      var sep := if first then "" else ",";
      first := false;
      r := WriteMember(v, keys, i, sep, out, r);
      i := i + 1;
    }
  }

  /** One pass of the member loop: the separator, the quoted key, the
      colon and the serialized value. */
  method WriteMember(v: Value, keys: seq<string>, i: nat, sep: string, ghost out: string, r: string) returns (r2: string)
    requires v.Object? && NumberFree(v) && i < |keys| && keys[i] in v.fields
    requires r == out + MembersText(v, keys, i) && sep == (if i > 0 then "," else "")
    ensures r2 == out + MembersText(v, keys, i + 1)
    decreases v, 0
  {
    r2 := WriteString(keys[i], r + sep);
    r2 := r2 + ":";
    ghost var mid := r2;
    r2 := Serialize(v.fields[keys[i]], r2);
    MembersStep(v, keys, i, out, r, sep, mid, r2);
  }

  /** One pass of the member loop extends the text by the next member. */
  lemma MembersStep(v: Value, keys: seq<string>, i: nat, out: string, before: string, sep: string, mid: string, after: string)
    requires v.Object? && NumberFree(v) && i < |keys| && keys[i] in v.fields
    requires before == out + MembersText(v, keys, i) && sep == (if i > 0 then "," else "")
    requires mid == before + sep + Quoted(keys[i]) + ":"
    requires after == mid + Serialized(v.fields[keys[i]])
    ensures after == out + MembersText(v, keys, i + 1)
  {
    var a, q, w := MembersText(v, keys, i), Quoted(keys[i]), Serialized(v.fields[keys[i]]);
    MembersTextNext(v, keys, i);
    Assoc(out, a + sep + q + ":", w);
    Assoc(out, a + sep + q, ":");
    Assoc(out, a + sep, q);
    Assoc(out, a, sep);
  }

  lemma MembersTextNext(v: Value, keys: seq<string>, i: nat)
    requires v.Object? && NumberFree(v) && i < |keys| && keys[i] in v.fields
    ensures MembersText(v, keys, i + 1) == MembersText(v, keys, i) + (if i > 0 then "," else "") + Quoted(keys[i]) + ":" + Serialized(v.fields[keys[i]])
  {
  }

  // ---------------------------------------------------------------------
  // Parser: each parse_* as a function of the input and the cursor, giving
  // the value and the cursor after it, or the message of the exception

  datatype Parsed = Parsed(value: Value, pos: nat)

  const END_OF_INPUT := "Unexpected end of input"

  /** peek(): the char at pos, or the end-of-input error. */
  function CharAt(input: string, pos: nat): (r: Result<char>)
    ensures r.Ok? <==> pos < |input|
    ensures r.Ok? ==> r.value == input[pos]
    ensures r.Err? ==> r.error == END_OF_INPUT
  {
    if pos < |input| then Ok(input[pos]) else Err(END_OF_INPUT)
  }

  predicate StartsNumber(c: char) { c == '-' || IsDigit(c) }

  /** parse_value: white space, then the parser the first char selects. */
  function ValueAt(input: string, pos: nat): (r: Result<Parsed>)
    requires pos <= |input|
    ensures r.Ok? ==> pos < r.value.pos <= |input|
    decreases |input| - pos, 1
  {
    var p := SkipSpace(input, pos);
    if p >= |input| then Err(END_OF_INPUT)
    else
      var ch := input[p];
      if ch == 'n' then NullAt(input, p)
      else if ch == 't' || ch == 'f' then BoolAt(input, p)
      else if StartsNumber(ch) then NumberAt(input, p)
      else if ch == '"' then StringAt(input, p)
      else if ch == '[' then ArrayAt(input, p)
      else if ch == '{' then ObjectAt(input, p)
      else Err("Invalid JSON value")
  }

  function NullAt(input: string, pos: nat): (r: Result<Parsed>)
    requires pos <= |input|
    ensures r.Ok? ==> pos < r.value.pos <= |input|
  {
    if Substr(input, pos, 4) == "null" then Ok(Parsed(Null, pos + 4))
    else Err("Invalid null value")
  }

  function BoolAt(input: string, pos: nat): (r: Result<Parsed>)
    requires pos <= |input|
    ensures r.Ok? ==> pos < r.value.pos <= |input|
  {
    if Substr(input, pos, 4) == "true" then Ok(Parsed(Bool(true), pos + 4))
    else if Substr(input, pos, 5) == "false" then Ok(Parsed(Bool(false), pos + 5))
    else Err("Invalid boolean value")
  }

  /** The end of the number text starting at pos: an optional '-', digits,
      then the fraction and the exponent parts. */
  function NumberEnd(input: string, pos: nat): (e: nat)
    requires pos < |input|
    ensures pos <= e <= |input|
  {
    var a := if input[pos] == '-' then pos + 1 else pos;
    ExponentEnd(input, FractionEnd(input, a + DigitRun(input, a, 10)))
  }

  /** Optionally '.' and digits. */
  function FractionEnd(input: string, pos: nat): (e: nat)
    requires pos <= |input|
    ensures pos <= e <= |input|
  {
    if pos < |input| && input[pos] == '.' then pos + 1 + DigitRun(input, pos + 1, 10) else pos
  }

  /** Optionally 'e' or 'E', an optional sign and digits. */
  function ExponentEnd(input: string, pos: nat): (e: nat)
    requires pos <= |input|
    ensures pos <= e <= |input|
  {
    if pos < |input| && (input[pos] == 'e' || input[pos] == 'E') then
      var s := if pos + 1 < |input| && (input[pos + 1] == '+' || input[pos + 1] == '-') then pos + 2 else pos + 1;
      s + DigitRun(input, s, 10)
    else pos
  }

  /** std::stod reads a number from the scanned text when its mantissa has a
      digit, before or after the '.'. */
  predicate HasMantissaDigit(lexeme: string) {
    exists k :: 0 <= k < |lexeme| && IsDigit(lexeme[k]) && forall j :: 0 <= j < k ==> lexeme[j] != 'e' && lexeme[j] != 'E'
  }

  function NumberAt(input: string, pos: nat): (r: Result<Parsed>)
    requires pos < |input| && StartsNumber(input[pos])
    ensures r.Ok? ==> pos < r.value.pos <= |input|
  {
    var e := NumberEnd(input, pos);
    var lexeme := input[pos..e];
    if HasMantissaDigit(lexeme) then Ok(Parsed(Number(lexeme), e)) else Err("stod")
  }

  /** The char a one-letter escape stands for. */
  function ShortEscape(esc: char): (r: Option<char>)
  {
    if esc == '"' then Some('"')
    else if esc == '\\' then Some('\\')
    else if esc == '/' then Some('/')
    else if esc == 'b' then Some(BACKSPACE)
    else if esc == 'f' then Some(FORM_FEED)
    else if esc == 'n' then Some('\n')
    else if esc == 'r' then Some('\r')
    else if esc == 't' then Some('\t')
    else None
  }

  /** std::stoi(hex, nullptr, 16) cast to char16_t: None when stoi finds no
      digit (std::invalid_argument). */
  function UnicodeCode(hex: string): (r: Option<nat>)
    ensures r.Some? ==> r.value < 0x1_0000
  {
    match ScanInteger(hex, 16)
    case None => None
    case Some((neg, mag)) => Some((if neg then -(mag as int) else mag as int) % 0x1_0000)
  }

  /** parse_string: '"', then the body. */
  function StringAt(input: string, pos: nat): (r: Result<Parsed>)
    requires pos <= |input|
    ensures r.Ok? ==> pos < r.value.pos <= |input| && r.value.value.Str?
  {
    if pos >= |input| then Err(END_OF_INPUT)
    else if input[pos] != '"' then Err("Expected '\"' at start of string")
    else StringBody(input, pos + 1, "")
  }

  /** The escape after a backslash at pos: the char it stands for and the
      position after it. */
  function EscapeAt(input: string, pos: nat): (r: Result<(char, int)>)
    requires pos <= |input|
    ensures r.Ok? ==> pos < r.value.1 <= |input|
  {
    if pos >= |input| then Err(END_OF_INPUT)
    else if input[pos] == 'u' then
      if pos + 5 > |input| then Err(END_OF_INPUT)
      else match UnicodeCode(input[pos + 1..pos + 5])
        case None => Err("stoi")
        case Some(code) =>
          if code <= 0x7F then Ok((code as char, pos + 5))
          else Err("Unicode characters > 0x7F not supported")
    else match ShortEscape(input[pos])
      case None => Err("Invalid escape sequence")
      case Some(c) => Ok((c, pos + 1))
  }

  /** The loop of parse_string from pos, with the chars decoded so far. */
  function StringBody(input: string, pos: nat, acc: string): (r: Result<Parsed>)
    requires pos <= |input|
    ensures r.Ok? ==> pos < r.value.pos <= |input| && r.value.value.Str?
    decreases |input| - pos
  {
    if pos >= |input| then Err(END_OF_INPUT)
    else if input[pos] == '"' then Ok(Parsed(Str(acc), pos + 1))
    else if input[pos] != '\\' then StringBody(input, pos + 1, acc + [input[pos]])
    else match EscapeAt(input, pos + 1)
      case Err(e) => Err(e)
      case Ok((c, next)) => StringBody(input, next, acc + [c])
  }

  /** parse_array: '[', then "]" or the elements. */
  function ArrayAt(input: string, pos: nat): (r: Result<Parsed>)
    requires pos <= |input|
    ensures r.Ok? ==> pos < r.value.pos <= |input|
    decreases |input| - pos, 0
  {
    if pos >= |input| then Err(END_OF_INPUT)
    else if input[pos] != '[' then Err("Expected '[' at start of array")
    else
      var q := SkipSpace(input, pos + 1);
      if q >= |input| then Err(END_OF_INPUT)
      else if input[q] == ']' then Ok(Parsed(Array([]), q + 1))
      else ElementsAt(input, q, [])
  }

  /** The element loop of parse_array at pos, with the elements so far. */
  function ElementsAt(input: string, pos: nat, items: seq<Value>): (r: Result<Parsed>)
    requires pos <= |input|
    ensures r.Ok? ==> pos < r.value.pos <= |input|
    decreases |input| - pos, 2
  {
    match ValueAt(input, pos)
    case Err(e) => Err(e)
    case Ok(element) => AfterElement(input, element.pos, items + [element.value])
  }

  /** After an element or a member: white space, then the closing char
      (true) or ',' and white space (false), with the position after them. */
  function SeparatorAt(input: string, pos: nat, close: char, message: string): (r: Result<(bool, int)>)
    requires pos <= |input|
    ensures r.Ok? ==> pos < r.value.1 <= |input|
  {
    var s := SkipSpace(input, pos);
    if s >= |input| then Err(END_OF_INPUT)
    else if input[s] == close then Ok((true, s + 1))
    else if input[s] != ',' then Err(message)
    else Ok((false, SkipSpace(input, s + 1)))
  }

  const ARRAY_SEPARATOR := "Expected ',' or ']' in array"
  const OBJECT_SEPARATOR := "Expected ',' or '}' in object"

  /** After an element: "]" ends the array, "," starts the next element. */
  function AfterElement(input: string, pos: nat, items: seq<Value>): (r: Result<Parsed>)
    requires pos <= |input|
    ensures r.Ok? ==> pos < r.value.pos <= |input|
    decreases |input| - pos, 2
  {
    match SeparatorAt(input, pos, ']', ARRAY_SEPARATOR)
    case Err(e) => Err(e)
    case Ok((closed, next)) =>
      if closed then Ok(Parsed(Array(items), next)) else ElementsAt(input, next, items)
  }

  /** parse_object: '{', then "}" or the members. */
  function ObjectAt(input: string, pos: nat): (r: Result<Parsed>)
    requires pos <= |input|
    ensures r.Ok? ==> pos < r.value.pos <= |input|
    decreases |input| - pos, 0
  {
    if pos >= |input| then Err(END_OF_INPUT)
    else if input[pos] != '{' then Err("Expected '{' at start of object")
    else
      var q := SkipSpace(input, pos + 1);
      if q >= |input| then Err(END_OF_INPUT)
      else if input[q] == '}' then Ok(Parsed(Object(map[]), q + 1))
      else MembersAt(input, q, map[])
  }

  /** The member loop of parse_object at pos, with the members so far; a
      key read again replaces the earlier value. */
  function MembersAt(input: string, pos: nat, fields: map<string, Value>): (r: Result<Parsed>)
    requires pos <= |input|
    ensures r.Ok? ==> pos < r.value.pos <= |input|
    decreases |input| - pos, 2
  {
    match MemberAt(input, pos)
    case Err(e) => Err(e)
    case Ok((key, value, next)) => AfterMember(input, next, fields[key := value])
  }

  /** One member: its key and ':', then the value; with the position after
      the value. */
  function MemberAt(input: string, pos: nat): (r: Result<(string, Value, int)>)
    requires pos <= |input|
    ensures r.Ok? ==> pos < r.value.2 <= |input|
    decreases |input| - pos, 1
  {
    match KeyAt(input, pos)
    case Err(e) => Err(e)
    case Ok((key, next)) =>
      match ValueAt(input, SkipSpace(input, next))
      case Err(e) => Err(e)
      case Ok(member) => Ok((key, member.value, member.pos))
  }

  /** White space, a string key, white space and ':'; with the position
      after the ':'. */
  function KeyAt(input: string, pos: nat): (r: Result<(string, int)>)
    requires pos <= |input|
    ensures r.Ok? ==> pos < r.value.1 <= |input|
  {
    var s := SkipSpace(input, pos);
    if s >= |input| then Err(END_OF_INPUT)
    else if input[s] != '"' then Err("Expected string key in object")
    else match StringAt(input, s)
      case Err(e) => Err(e)
      case Ok(key) =>
        var t := SkipSpace(input, key.pos);
        if t >= |input| then Err(END_OF_INPUT)
        else if input[t] != ':' then Err("Expected ':' after key in object")
        else Ok((key.value.s, t + 1))
  }

  /** After a member: "}" ends the object, "," starts the next member. */
  function AfterMember(input: string, pos: nat, fields: map<string, Value>): (r: Result<Parsed>)
    requires pos <= |input|
    ensures r.Ok? ==> pos < r.value.pos <= |input|
    decreases |input| - pos, 2
  {
    match SeparatorAt(input, pos, '}', OBJECT_SEPARATOR)
    case Err(e) => Err(e)
    case Ok((closed, next)) =>
      if closed then Ok(Parsed(Object(fields), next)) else MembersAt(input, next, fields)
  }

  /** Parser::deserialize: the first value of the input; what follows it is
      never looked at. */
  function Deserialized(input: string): (r: Result<Value>)
  {
    match ValueAt(input, 0)
    case Err(e) => Err(e)
    case Ok(p) => Ok(p.value)
  }

  /** A parse_* method returned r and left the cursor at pos, as the
      function s says. */
  predicate Agrees(r: Result<Value>, pos: nat, s: Result<Parsed>) {
    match s
    case Ok(p) => r == Ok(p.value) && pos == p.pos
    case Err(e) => r == Err(e)
  }

  // ---------------------------------------------------------------------
  // The Parser class: the input and the _pos cursor

  class Parser {
    const input: string
    var pos: nat

    constructor(input: string)
      ensures this.input == input && pos == 0
    {
      this.input := input;
      pos := 0;
    }

    method SkipWhitespace()
      requires pos <= |input|
      modifies this
      ensures pos == SkipSpace(input, old(pos))
    {
      while pos < |input| && IsSpace(input[pos])
        invariant old(pos) <= pos <= |input|
        invariant SkipSpace(input, pos) == SkipSpace(input, old(pos))
        decreases |input| - pos
      {
        pos := pos + 1;
      }
    }

    method Peek() returns (r: Result<char>)
      requires pos <= |input|
      ensures r == CharAt(input, pos)
    {
      if pos >= |input| {
        return Err(END_OF_INPUT);
      }
      return Ok(input[pos]);
    }

    method Get() returns (r: Result<char>)
      requires pos <= |input|
      modifies this
      ensures r == CharAt(input, old(pos))
      ensures pos == if old(pos) < |input| then old(pos) + 1 else old(pos)
    {
      if pos >= |input| {
        return Err(END_OF_INPUT);
      }
      r := Ok(input[pos]);
      pos := pos + 1;
    }

    method ParseValue() returns (r: Result<Value>)
      requires pos <= |input|
      modifies this
      ensures pos <= |input| && Agrees(r, pos, ValueAt(input, old(pos)))
      decreases |input| - pos, 1
    {
      SkipWhitespace();
      var ch := Peek();
      if ch.Err? {
        return Err(ch.error);
      }
      var c := ch.value;
      if c == 'n' {
        r := ParseNull();
      } else if c == 't' || c == 'f' {
        r := ParseBool();
      } else if c == '-' || IsDigit(c) {
        r := ParseNumber();
      } else if c == '"' {
        r := ParseString();
      } else if c == '[' {
        r := ParseArray();
      } else if c == '{' {
        r := ParseObject();
      } else {
        r := Err("Invalid JSON value");
      }
    }

    method ParseNull() returns (r: Result<Value>)
      requires pos <= |input|
      modifies this
      ensures pos <= |input| && Agrees(r, pos, NullAt(input, old(pos)))
    {
      if Substr(input, pos, 4) == "null" {
        pos := pos + 4;
        return Ok(Null);
      }
      return Err("Invalid null value");
    }

    method ParseBool() returns (r: Result<Value>)
      requires pos <= |input|
      modifies this
      ensures pos <= |input| && Agrees(r, pos, BoolAt(input, old(pos)))
    {
      if Substr(input, pos, 4) == "true" {
        pos := pos + 4;
        return Ok(Bool(true));
      } else if Substr(input, pos, 5) == "false" {
        pos := pos + 5;
        return Ok(Bool(false));
      }
      return Err("Invalid boolean value");
    }

    /** A run of digits from pos. */
    method SkipDigits()
      requires pos <= |input|
      modifies this
      ensures pos == old(pos) + DigitRun(input, old(pos), 10)
    {
      while pos < |input| && IsDigit(input[pos])
        invariant old(pos) <= pos <= |input|
        invariant old(pos) + DigitRun(input, old(pos), 10) == pos + DigitRun(input, pos, 10)
        decreases |input| - pos
      {
        pos := pos + 1;
      }
    }

    /** The scan of parse_number: sign, digits, fraction, exponent. */
    method SkipNumber()
      requires pos < |input|
      modifies this
      ensures pos == NumberEnd(input, old(pos))
    {
      ghost var start := pos;
      if input[pos] == '-' {
        pos := pos + 1;
      }
      ghost var a := pos;
      assert a == if input[start] == '-' then start + 1 else start;
      SkipDigits();
      ghost var b := pos;
      SkipFraction();
      ghost var c := pos;
      SkipExponent();
      assert b == a + DigitRun(input, a, 10) && c == FractionEnd(input, b) && pos == ExponentEnd(input, c);
    }

    method SkipFraction()
      requires pos <= |input|
      modifies this
      ensures pos == FractionEnd(input, old(pos))
    {
      if pos < |input| && input[pos] == '.' {
        pos := pos + 1;
        SkipDigits();
      }
    }

    method SkipExponent()
      requires pos <= |input|
      modifies this
      ensures pos == ExponentEnd(input, old(pos))
    {
      if pos < |input| && (input[pos] == 'e' || input[pos] == 'E') {
        pos := pos + 1;
        if pos < |input| && (input[pos] == '+' || input[pos] == '-') {
          pos := pos + 1;
        }
        SkipDigits();
      }
    }

    method ParseNumber() returns (r: Result<Value>)
      requires pos < |input| && StartsNumber(input[pos])
      modifies this
      ensures pos <= |input| && Agrees(r, pos, NumberAt(input, old(pos)))
    {
      var start := pos;
      SkipNumber();
      var lexeme := input[start..pos];
      if HasMantissaDigit(lexeme) {
        return Ok(Number(lexeme));
      }
      return Err("stod");
    }

    method ParseString() returns (r: Result<Value>)
      requires pos <= |input|
      modifies this
      ensures pos <= |input| && Agrees(r, pos, StringAt(input, old(pos)))
      ensures r.Ok? ==> r.value.Str?
    {
      var open := Get();
      if open.Err? {
        return Err(open.error);
      }
      if open.value != '"' {
        return Err("Expected '\"' at start of string");
      }
      var result := "";
      while true
        invariant old(pos) < pos <= |input|
        invariant StringBody(input, pos, result) == StringAt(input, old(pos))
        decreases |input| - pos
      {
        var ch := Get();
        if ch.Err? {
          return Err(ch.error);
        }
        if ch.value == '"' {
          return Ok(Str(result));
        } else if ch.value == '\\' {
          var c := ReadEscape();
          if c.Err? {
            return Err(c.error);
          }
          result := result + [c.value];
        } else {
          result := result + [ch.value];
        }
      }
    }

    /** The escape after a backslash, "\\uXXXX" read as four Get() calls. */
    method ReadEscape() returns (r: Result<char>)
      requires pos <= |input|
      modifies this
      ensures pos <= |input|
      ensures match EscapeAt(input, old(pos))
        case Ok((c, next)) => r == Ok(c) && pos == next
        case Err(e) => r == Err(e)
    {
      var esc := Get();
      if esc.Err? {
        return Err(esc.error);
      }
      if esc.value == 'u' {
        var hex := "";
        var i := 0;
        while i < 4
          invariant 0 <= i <= 4 && pos == old(pos) + 1 + i <= |input| && hex == input[old(pos) + 1..pos]
          decreases 4 - i
        {
          var h := Get();
          if h.Err? {
            return Err(h.error);
          }
          hex := hex + [h.value];
          i := i + 1;
        }
        var code := UnicodeCode(hex);
        if code.None? {
          return Err("stoi");
        }
        if code.value > 0x7F {
          return Err("Unicode characters > 0x7F not supported");
        }
        return Ok(code.value as char);
      }
      var c := ShortEscape(esc.value);
      if c.None? {
        return Err("Invalid escape sequence");
      }
      return Ok(c.value);
    }

    method ParseArray() returns (r: Result<Value>)
      requires pos <= |input|
      modifies this
      ensures pos <= |input| && Agrees(r, pos, ArrayAt(input, old(pos)))
      decreases |input| - pos, 0
    {
      var open := Get();
      if open.Err? {
        return Err(open.error);
      }
      if open.value != '[' {
        return Err("Expected '[' at start of array");
      }
      SkipWhitespace();
      var ch := Peek();
      if ch.Err? {
        return Err(ch.error);
      }
      if ch.value == ']' {
        pos := pos + 1;
        return Ok(Array([]));
      }
      var items: seq<Value> := [];
      while true
        invariant old(pos) < pos <= |input|
        invariant ElementsAt(input, pos, items) == ArrayAt(input, old(pos))
        decreases |input| - pos
      {
        var element := ParseValue();
        if element.Err? {
          return Err(element.error);
        }
        items := items + [element.value];
        var closed := ReadSeparator(']', ARRAY_SEPARATOR);
        if closed.Err? {
          return Err(closed.error);
        }
        if closed.value {
          return Ok(Array(items));
        }
      }
    }

    /** The separator after an element or a member, as SeparatorAt says. */
    method ReadSeparator(close: char, message: string) returns (r: Result<bool>)
      requires pos <= |input|
      modifies this
      ensures pos <= |input|
      ensures match SeparatorAt(input, old(pos), close, message)
        case Ok((closed, next)) => r == Ok(closed) && pos == next
        case Err(e) => r == Err(e)
    {
      SkipWhitespace();
      var sep := Get();
      if sep.Err? {
        return Err(sep.error);
      }
      if sep.value == close {
        return Ok(true);
      } else if sep.value != ',' {
        return Err(message);
      }
      SkipWhitespace();
      return Ok(false);
    }

    method ParseObject() returns (r: Result<Value>)
      requires pos <= |input|
      modifies this
      ensures pos <= |input| && Agrees(r, pos, ObjectAt(input, old(pos)))
      decreases |input| - pos, 0
    {
      var open := Get();
      if open.Err? {
        return Err(open.error);
      }
      if open.value != '{' {
        return Err("Expected '{' at start of object");
      }
      SkipWhitespace();
      var ch := Peek();
      if ch.Err? {
        return Err(ch.error);
      }
      if ch.value == '}' {
        pos := pos + 1;
        return Ok(Object(map[]));
      }
      var fields: map<string, Value> := map[];
      while true
        invariant old(pos) < pos <= |input|
        invariant MembersAt(input, pos, fields) == ObjectAt(input, old(pos))
        decreases |input| - pos
      {
        var member := ParseMember();
        if member.Err? {
          return Err(member.error);
        }
        fields := fields[member.value.0 := member.value.1];
        var closed := ReadSeparator('}', OBJECT_SEPARATOR);
        if closed.Err? {
          return Err(closed.error);
        }
        if closed.value {
          return Ok(Object(fields));
        }
      }
    }

    /** One pass of the member loop up to the separator: the key and the
        value. */
    method ParseMember() returns (r: Result<(string, Value)>)
      requires pos <= |input|
      modifies this
      ensures pos <= |input|
      ensures match MemberAt(input, old(pos))
        case Ok((key, value, next)) => r == Ok((key, value)) && pos == next
        case Err(e) => r == Err(e)
      decreases |input| - pos, 2
    {
      var key := ReadKey();
      if key.Err? {
        return Err(key.error);
      }
      SkipWhitespace();
      var value := ParseValue();
      if value.Err? {
        return Err(value.error);
      }
      return Ok((key.value, value.value));
    }

    /** The key of a member and the ':' after it. */
    method ReadKey() returns (r: Result<string>)
      requires pos <= |input|
      modifies this
      ensures pos <= |input|
      ensures match KeyAt(input, old(pos))
        case Ok((key, next)) => r == Ok(key) && pos == next
        case Err(e) => r == Err(e)
    {
      SkipWhitespace();
      var quote := Peek();
      if quote.Err? {
        return Err(quote.error);
      }
      if quote.value != '"' {
        return Err("Expected string key in object");
      }
      var key := ParseString();
      if key.Err? {
        return Err(key.error);
      }
      SkipWhitespace();
      var colon := Get();
      if colon.Err? {
        return Err(colon.error);
      }
      if colon.value != ':' {
        return Err("Expected ':' after key in object");
      }
      return Ok(key.value.s);
    }
  }

  /** Parser::deserialize. */
  method Deserialize(input: string) returns (r: Result<Value>)
    ensures r == Deserialized(input)
  {
    var parser := new Parser(input);
    r := parser.ParseValue();
  }
}
