/** What the parser of parsers/toml/toml.hpp reads back from the strings
    Value::serialize writes, and what its table headers and dotted keys do
    to the document. */
module TomlProperties {
  import opened Wrappers
  import opened Chars
  import opened StdString
  import Json
  import JsonRoundTrip
  import opened Toml

  // ---------------------------------------------------------------------
  // Strings

  /** A char the string escapes carry through: \u escapes above 0x7F are
      rejected, so only the ASCII range reads back. */
  predicate Ascii(c: char) { c as int < 0x80 }

  /** The escape of c does not start with the quote that closes the
      string. */
  predicate QuoteSafe(c: char, quote: char) { EscapedChar(c)[0] != quote }

  /** Every char of s is ASCII and quote-safe. */
  predicate Readable(s: string, quote: char) {
    s == [] || (Ascii(s[0]) && QuoteSafe(s[0], quote) && Readable(s[1..], quote))
  }

  /** Between double quotes every ASCII string is readable. */
  lemma {:induction false} AsciiReadable(s: string)
    requires forall i :: 0 <= i < |s| ==> Ascii(s[i])
    ensures Readable(s, '"')
    decreases s
  {
    if s != [] {
      assert Ascii(s[0]);
      assert forall i :: 0 <= i < |s[1..]| ==> s[1..][i] == s[i + 1];
      AsciiReadable(s[1..]);
    }
  }

  predicate IsQuote(c: char) { c == '"' || c == '\'' }

  /** A char other than the quote and the backslash is copied. */
  lemma PlainRead(input: string, p: nat, quote: char, acc: string)
    requires p < |input| && input[p] != quote && input[p] != '\\'
    ensures StringBody(input, p, quote, acc) == StringBody(input, p + 1, quote, acc + [input[p]])
  {
  }

  /** A backslash and the escape after it. */
  lemma EscapeRead(input: string, p: nat, quote: char, acc: string, c: char, next: nat)
    requires p < |input| && input[p] == '\\' && IsQuote(quote) && p + 1 <= |input|
    requires Json.EscapeAt(input, p + 1) == Ok((c, next as int))
    ensures StringBody(input, p, quote, acc) == StringBody(input, next, quote, acc + [c])
  {
  }

  /** A char serialize copies reads back as itself. */
  lemma PlainCharRead(input: string, p: nat, quote: char, c: char, acc: string)
    requires Printable(c) && c != '"' && c != '\\' && c != quote && At(input, p, EscapedChar(c))
    ensures StringBody(input, p, quote, acc) == StringBody(input, p + |EscapedChar(c)|, quote, acc + [c])
  {
    AtChar(input, p, EscapedChar(c), 0);
    PlainRead(input, p, quote, acc);
  }

  predicate Short(c: char) {
    c == '"' || c == '\\' || c == Json.BACKSPACE || c == Json.FORM_FEED || c == '\n' || c == '\r' || c == '\t'
  }

  /** The two-char escapes: a backslash and the char the decoder maps back
      to c. */
  lemma ShortText(c: char)
    requires Short(c)
    ensures |EscapedChar(c)| == 2 && EscapedChar(c)[0] == '\\' && EscapedChar(c)[1] != 'u'
    ensures Json.ShortEscape(EscapedChar(c)[1]) == Some(c)
  {
  }

  lemma ShortCharRead(input: string, p: nat, quote: char, c: char, acc: string)
    requires Short(c) && IsQuote(quote) && At(input, p, EscapedChar(c))
    ensures StringBody(input, p, quote, acc) == StringBody(input, p + |EscapedChar(c)|, quote, acc + [c])
  {
    var e := EscapedChar(c);
    ShortText(c);
    AtChar(input, p, e, 0);
    AtChar(input, p, e, 1);
    assert Json.EscapeAt(input, p + 1) == Ok((c, p + 2));
    EscapeRead(input, p, quote, acc, c, p + 2);
  }

  /** The six-char escape of any other byte outside 0x20..0x7E: a
      backslash, 'u' and four hex digits of the byte. */
  lemma UnicodeText(c: char)
    requires !Printable(c) && !Short(c)
    ensures |EscapedChar(c)| == 6 && EscapedChar(c)[0] == '\\' && EscapedChar(c)[1] == 'u'
    ensures Json.UnicodeCode(EscapedChar(c)[2..6]) == Some(Byte(c))
  {
    var x, y := HexForm(c);
    JsonRoundTrip.HexPairCode(x, y);
    assert EscapedChar(c)[2..6] == "00" + [x, y];
  }

  /** The two hex digits of the byte, high digit first. */
  lemma HexForm(c: char) returns (x: char, y: char)
    requires !Printable(c) && !Short(c)
    ensures Chars.IsHexDigit(x) && Chars.IsHexDigit(y) && Chars.HexValue(x) * 16 + Chars.HexValue(y) == Byte(c)
    ensures EscapedChar(c) == "\\u00" + [x, y]
  {
    var b := Byte(c);
    x, y := Json.HexDigit(b / 16), Json.HexDigit(b % 16);
  }

  /** The escape at p of a byte outside 0x20..0x7E: decoded when the byte
      is ASCII, rejected otherwise. */
  lemma UnicodeEscapeAt(input: string, p: nat, c: char)
    requires !Printable(c) && !Short(c) && At(input, p, EscapedChar(c))
    ensures input[p] == '\\'
    ensures Json.EscapeAt(input, p + 1) ==
      if Byte(c) <= 0x7F then Ok((Byte(c) as char, p + 6))
      else Err("Unicode characters > 0x7F not supported")
  {
    var e := EscapedChar(c);
    UnicodeText(c);
    AtChar(input, p, e, 0);
    AtChar(input, p, e, 1);
    AtSlice(input, p, e, 2, 6);
  }

  lemma UnicodeCharRead(input: string, p: nat, quote: char, c: char, acc: string)
    requires !Printable(c) && !Short(c) && Ascii(c) && IsQuote(quote) && At(input, p, EscapedChar(c))
    ensures StringBody(input, p, quote, acc) == StringBody(input, p + |EscapedChar(c)|, quote, acc + [c])
  {
    UnicodeEscapeAt(input, p, c);
    assert Byte(c) as char == c;
    EscapeRead(input, p, quote, acc, c, p + 6);
  }

  /** The escape serialize writes for an ASCII char reads back as the
      char, whichever quote encloses the string, when the escape does not
      begin with that quote. */
  lemma CharRead(input: string, p: nat, quote: char, c: char, acc: string)
    requires Ascii(c) && QuoteSafe(c, quote) && IsQuote(quote) && At(input, p, EscapedChar(c))
    ensures StringBody(input, p, quote, acc) == StringBody(input, p + |EscapedChar(c)|, quote, acc + [c])
  {
    if Short(c) {
      ShortCharRead(input, p, quote, c, acc);
    } else if Printable(c) {
      PlainCharRead(input, p, quote, c, acc);
    } else {
      UnicodeCharRead(input, p, quote, c, acc);
    }
  }

  lemma EscapedCons(s: string)
    requires s != []
    ensures Escaped(s) == EscapedChar(s[0]) + Escaped(s[1..])
  {
  }

  /** The escapes of the readable string a at p, ending at e, read back
      as a, after the chars acc. */
  lemma {:induction false} BodyPrefix(input: string, p: nat, quote: char, a: string, acc: string, e: nat)
    requires Readable(a, quote) && IsQuote(quote) && At(input, p, Escaped(a)) && e == p + |Escaped(a)|
    ensures StringBody(input, p, quote, acc) == StringBody(input, e, quote, acc + a)
    decreases a
  {
    if a == [] {
      assert acc + a == acc;
    } else {
      var c, rest := a[0], a[1..];
      var q := p + |EscapedChar(c)|;
      BodyStep(input, p, quote, a, acc, c, rest, q);
      BodyPrefix(input, q, quote, rest, acc + [c], e);
      Congruent(input, e, e, quote, acc + [c] + rest, acc + a);
    }
  }

  lemma Congruent(input: string, p: nat, q: nat, quote: char, acc: string, acc': string)
    requires p == q <= |input| && acc == acc'
    ensures StringBody(input, p, quote, acc) == StringBody(input, q, quote, acc')
  {
  }

  /** One char of a readable body: its escape at p reads back as the
      char, and the rest of the body follows at q. */
  lemma BodyStep(input: string, p: nat, quote: char, a: string, acc: string, c: char, rest: string, q: nat)
    requires a != [] && c == a[0] && rest == a[1..] && q == p + |EscapedChar(c)|
    requires Readable(a, quote) && IsQuote(quote) && At(input, p, Escaped(a))
    ensures At(input, q, Escaped(rest)) && Readable(rest, quote)
    ensures q + |Escaped(rest)| == p + |Escaped(a)| && acc + [c] + rest == acc + a
    ensures StringBody(input, p, quote, acc) == StringBody(input, q, quote, acc + [c])
  {
    BodyText(input, p, a, c, rest);
    CharRead(input, p, quote, c, acc);
    ConsAppend(acc, a, c, rest);
  }

  lemma ConsAppend(acc: string, a: string, c: char, rest: string)
    requires a != [] && c == a[0] && rest == a[1..]
    ensures acc + [c] + rest == acc + a
  {
    assert a == [c] + rest;
  }

  lemma BodyText(input: string, p: nat, a: string, c: char, rest: string)
    requires a != [] && c == a[0] && rest == a[1..] && At(input, p, Escaped(a))
    ensures At(input, p, EscapedChar(c)) && At(input, p + |EscapedChar(c)|, Escaped(rest))
    ensures |Escaped(a)| == |EscapedChar(c)| + |Escaped(rest)|
  {
    EscapedCons(a);
    AtSplit(input, p, EscapedChar(c), Escaped(rest));
  }

  /** An opening quote, the escapes of s and the same quote again. */
  function QuotedWith(quote: char, s: string): string {
    [quote] + Escaped(s) + [quote]
  }

  /** parse_string reads back the text serialize writes for an ASCII
      string, and reads the same escapes between single quotes too (when
      the string holds no single quote, which serialize does not
      escape). */
  lemma QuotedRead(input: string, p: nat, quote: char, s: string)
    requires IsQuote(quote) && Readable(s, quote) && At(input, p, QuotedWith(quote, s))
    ensures StringAt(input, p) == Ok(Parsed(Str(s), p + |QuotedWith(quote, s)|))
  {
    var close := QuotedParts(input, p, quote, Escaped(s), QuotedWith(quote, s));
    ReadBetween(input, p, quote, s, close);
  }

  /** The quote at p, the text e after it and the same quote at close. */
  predicate Enclosed(input: string, p: nat, quote: char, e: string, close: nat) {
    p < |input| && input[p] == quote && At(input, p + 1, e) &&
    close == p + 1 + |e| && close < |input| && input[close] == quote
  }

  lemma QuotedParts(input: string, p: nat, quote: char, e: string, t: string) returns (close: nat)
    requires t == [quote] + e + [quote] && At(input, p, t)
    ensures Enclosed(input, p, quote, e, close) && close + 1 == p + |t|
  {
    close := p + 1 + |e|;
    AtSplit(input, p, [quote] + e, [quote]);
    AtSplit(input, p, [quote], e);
    AtChar(input, p, [quote], 0);
    AtChar(input, close, [quote], 0);
  }

  /** The escapes of a readable string between two quotes read back as
      the string, up to the closing quote. */
  lemma ReadBetween(input: string, p: nat, quote: char, s: string, close: nat)
    requires IsQuote(quote) && Readable(s, quote) && Enclosed(input, p, quote, Escaped(s), close)
    ensures StringAt(input, p) == Ok(Parsed(Str(s), close + 1))
  {
    StringOpen(input, p);
    BodyPrefix(input, p + 1, quote, s, "", close);
    EmptyPrefix(s);
    BodyClose(input, close, quote, s);
  }

  lemma EmptyPrefix(s: string)
    ensures "" + s == s
  {
  }

  lemma StringOpen(input: string, p: nat)
    requires p < |input| && IsQuote(input[p])
    ensures StringAt(input, p) == StringBody(input, p + 1, input[p], "")
  {
  }

  lemma BodyClose(input: string, p: nat, quote: char, acc: string)
    requires p < |input| && input[p] == quote
    ensures StringBody(input, p, quote, acc) == Ok(Parsed(Str(acc), p + 1))
  {
  }

  /** Every ASCII string round-trips through serialize and parse_string. */
  lemma StringRoundTrip(s: string, rest: string)
    requires forall i :: 0 <= i < |s| ==> Ascii(s[i])
    ensures StringAt(Quoted(s) + rest, 0) == Ok(Parsed(Str(s), |Quoted(s)|))
  {
    AsciiReadable(s);
    var input := Quoted(s) + rest;
    assert QuotedWith('"', s) == Quoted(s);
    assert input[0..|Quoted(s)|] == Quoted(s);
    QuotedRead(input, 0, '"', s);
  }

  /** A string holding a byte from 0x80 up is written as a \u escape the
      parser refuses: the round trip holds only within ASCII. */
  lemma NonAsciiRejected(input: string, p: nat, a: string, c: char, b: string)
    requires Readable(a, '"') && 0x80 <= c as int < 0x100
    requires At(input, p, Quoted(a + [c] + b))
    ensures StringAt(input, p) == Err("Unicode characters > 0x7F not supported")
  {
    var q := NonAsciiText(input, p, a, c, b);
    HighEscape(input, q, c);
    BodyFails(input, p + 1, '"', a, q);
  }

  /** A readable prefix followed by an escape that fails: the body fails
      with the escape's error. */
  lemma BodyFails(input: string, p: nat, quote: char, a: string, q: nat)
    requires Readable(a, quote) && IsQuote(quote) && At(input, p, Escaped(a)) && q == p + |Escaped(a)|
    requires q < |input| && input[q] == '\\' && Json.EscapeAt(input, q + 1).Err?
    ensures StringBody(input, p, quote, "") == Err(Json.EscapeAt(input, q + 1).error)
  {
    BodyPrefix(input, p, quote, a, "", q);
    EscapeFails(input, q, quote, "" + a);
  }

  /** The escape at q of a byte from 0x80 up is rejected. */
  lemma HighEscape(input: string, q: nat, c: char)
    requires 0x80 <= c as int < 0x100 && At(input, q, EscapedChar(c))
    ensures q < |input| && input[q] == '\\'
    ensures Json.EscapeAt(input, q + 1) == Err("Unicode characters > 0x7F not supported")
  {
    HighByte(c);
    UnicodeEscapeAt(input, q, c);
  }

  lemma HighByte(c: char)
    requires 0x80 <= c as int < 0x100
    ensures Byte(c) == c as int && !Printable(c) && !Short(c) && Byte(c) > 0x7F
  {
  }

  /** The layout of a quoted string with c after the prefix a: the opening
      quote at p, the escapes of a after it, and those of c at q. */
  lemma NonAsciiText(input: string, p: nat, a: string, c: char, b: string) returns (q: nat)
    requires At(input, p, Quoted(a + [c] + b))
    ensures q == p + 1 + |Escaped(a)|
    ensures p < |input| && input[p] == '"' && StringAt(input, p) == StringBody(input, p + 1, '"', "")
    ensures At(input, p + 1, Escaped(a)) && At(input, q, EscapedChar(c))
  {
    q := p + 1 + |Escaped(a)|;
    var head, e, tail := "\"" + Escaped(a), EscapedChar(c), Escaped(b) + "\"";
    QuotedThree(a, c, b);
    AtSplit(input, p, head, e + tail);
    AtSplit(input, p, "\"", Escaped(a));
    AtSplit(input, q, e, tail);
    AtChar(input, p, "\"", 0);
  }

  lemma QuotedThree(a: string, c: char, b: string)
    ensures Quoted(a + [c] + b) == ("\"" + Escaped(a)) + (EscapedChar(c) + (Escaped(b) + "\""))
  {
    var x, y, z := Escaped(a), EscapedChar(c), Escaped(b);
    EscapedAppend(a + [c], b);
    EscapedAppend(a, [c]);
    assert Escaped([c]) == y;
    assert Escaped(a + [c] + b) == x + y + z;
    var q := "\"";
    Json.Assoc(q, x + y, z);
    Json.Assoc(q, x, y);
    Json.Assoc(q + x, y, z + q);
    Json.Assoc(q + x + y, z, q);
  }

  /** A backslash whose escape the decoder rejects ends the string with
      that error. */
  lemma EscapeFails(input: string, p: nat, quote: char, acc: string)
    requires p < |input| && input[p] == '\\' && IsQuote(quote) && Json.EscapeAt(input, p + 1).Err?
    ensures StringBody(input, p, quote, acc) == Err(Json.EscapeAt(input, p + 1).error)
  {
  }

  // ---------------------------------------------------------------------
  // Tables

  /** A dotted key assignment puts the value at the dotted key, whatever
      was there or on the way before. */
  lemma {:induction false} SetInLookup(t: map<string, Value>, keys: seq<string>, v: Value)
    requires keys != []
    ensures Lookup(SetIn(t, keys, v), keys) == Some(v)
    decreases |keys|
  {
    if |keys| > 1 {
      SetInLookup(Child(t, keys[0]), keys[1..], v);
    }
  }

  /** A key/value line changes the current table and keeps the path to it:
      the table the path leads to gets the dotted key. */
  lemma {:induction false} AssignTable(t: map<string, Value>, path: seq<Step>, keys: seq<string>, v: Value)
    requires Valid(t, path) && keys != []
    ensures TableAt(AssignAt(t, path, keys, v), path) == SetIn(TableAt(t, path), keys, v)
    decreases path
  {
    if path != [] {
      match path[0]
      case Into(k) =>
        AssignTable(t[k].fields, path[1..], keys, v);
      case Appended(k) =>
        var items := t[k].items;
        AssignTable(Last(items).fields, path[1..], keys, v);
    }
  }

  /** What a "[keys]" header re-enters: the existing table at the keys, or
      a fresh one. */
  function Reentered(t: map<string, Value>, keys: seq<string>): map<string, Value>
    requires keys != []
  {
    match Lookup(t, keys)
    case Some(Object(m)) => m
    case _ => map[]
  }

  /** What a "[[keys]]" header appends to: the existing array at the keys,
      or a fresh one. */
  function Extended(t: map<string, Value>, keys: seq<string>): seq<Value>
    requires keys != []
  {
    match Lookup(t, keys)
    case Some(Array(items)) => items
    case _ => []
  }

  /** A "[keys]" header makes the current table the one already at the
      keys (declaring a table twice is not an error), or a fresh one. */
  lemma {:induction false} OpenTable(t: map<string, Value>, keys: seq<string>)
    requires keys != []
    ensures TableAt(Open(t, keys, false), HeaderPath(keys, false)) == Reentered(t, keys)
    ensures Lookup(Open(t, keys, false), keys) == Some(Object(Reentered(t, keys)))
    decreases |keys|
  {
    if |keys| > 1 {
      var k := keys[0];
      OpenTable(Child(t, k), keys[1..]);
      assert HeaderPath(keys, false)[1..] == HeaderPath(keys[1..], false);
    }
  }

  /** A "[[keys]]" header appends a fresh table to the array at the keys
      (replacing a non-array) and makes it the current table. */
  lemma {:induction false} OpenArray(t: map<string, Value>, keys: seq<string>)
    requires keys != []
    ensures TableAt(Open(t, keys, true), HeaderPath(keys, true)) == map[]
    ensures Lookup(Open(t, keys, true), keys) == Some(Array(Extended(t, keys) + [Object(map[])]))
    decreases |keys|
  {
    if |keys| > 1 {
      var k := keys[0];
      OpenArray(Child(t, k), keys[1..]);
      assert HeaderPath(keys, true)[1..] == HeaderPath(keys[1..], true);
    } else {
      var items := Items(t, keys[0]) + [Object(map[])];
      assert Last(items) == Object(map[]);
    }
  }

  // ---------------------------------------------------------------------
  // Documents

  /** A document whose first token can start neither a header nor a key
      (such as "  {invalid toml}  ") fails with "Invalid key". */
  lemma InvalidKeyFails(input: string)
    requires SkipTrivia(input, 0) < |input|
    requires var c := input[SkipTrivia(input, 0)]; c != '[' && !IsQuote(c) && !IsBareKeyChar(c)
    ensures Deserialized(input) == Err("Invalid key")
  {
    var p := SkipTrivia(input, 0);
    assert SkipTrivia(input, p) == p;
    assert KeyAt(input, p) == Err("Invalid key");
    assert DottedKeysAt(input, p, []) == Err("Invalid key");
  }

  /** A document whose first line is a bare key ending at e followed, after
      white space and comments (to s), by a char other than '.' and '=':
      the '=' is missing. */
  lemma MissingEquals(input: string, e: nat, s: nat)
    requires 0 < |input| && IsBareKeyChar(input[0]) && e == BareKeyEnd(input, 0) && s == SkipTrivia(input, e)
    requires s < |input| && input[s] != '.' && input[s] != '='
    ensures Deserialized(input) == Err("Expected '=' after key")
  {
    var key, s' := FirstKey(input);
    KeyLineEquals(input, key, s);
    FirstLineFails(input);
  }

  /** A document that is a bare key (ending at e) followed only by white
      space and comments is a truncated document. */
  lemma KeyOnly(input: string, e: nat, s: nat)
    requires 0 < |input| && IsBareKeyChar(input[0]) && e == BareKeyEnd(input, 0) && s == SkipTrivia(input, e)
    requires s == |input|
    ensures Deserialized(input) == Err(END_OF_INPUT)
  {
    var key, s' := FirstKey(input);
    KeyLineTruncated(input);
    FirstLineFails(input);
  }

  /** The first key of a document that opens with a bare key, and the
      position s after the white space and comments that follow it: the
      dotted-key loop stops there or goes on after a '.'. */
  lemma FirstKey(input: string) returns (key: string, s: nat)
    requires 0 < |input| && IsBareKeyChar(input[0])
    ensures key == input[..BareKeyEnd(input, 0)] && s == SkipTrivia(input, BareKeyEnd(input, 0))
    ensures s == |input| ==> DottedKeysAt(input, 0, []) == Err(END_OF_INPUT)
    ensures s < |input| && input[s] != '.' ==> DottedKeysAt(input, 0, []) == Ok(([key], s))
  {
    var e := BareKeyEnd(input, 0);
    key := input[..e];
    s := SkipTrivia(input, e);
    assert SkipTrivia(input, 0) == 0;
    assert input[0..e] == key;
    assert KeyAt(input, 0) == Ok((key, e));
    assert [] + [key] == [key];
  }

  /** The first key followed by a '.': the dotted-key loop goes on after
      it. */
  lemma FirstKeyDotted(input: string, e: nat, s: nat) returns (key: string)
    requires 0 < |input| && IsBareKeyChar(input[0]) && e == BareKeyEnd(input, 0) && s == SkipTrivia(input, e)
    requires s < |input| && input[s] == '.'
    ensures DottedKeysAt(input, 0, []) == DottedKeysAt(input, s + 1, [key])
  {
    key := input[..e];
    assert SkipTrivia(input, 0) == 0;
    assert input[0..e] == key;
    assert KeyAt(input, 0) == Ok((key, e));
    DottedKeysStep(input, 0, [], key, e, s);
    assert [] + [key] == [key];
  }

  /** A key read at pos and followed by a '.' at q: the dotted-key loop
      goes on after the '.'. */
  lemma DottedKeysStep(input: string, pos: nat, keys: seq<string>, key: string, next: nat, q: nat)
    requires pos <= |input| && KeyAt(input, SkipTrivia(input, pos)) == Ok((key, next))
    requires q == SkipTrivia(input, next) && q < |input| && input[q] == '.'
    ensures DottedKeysAt(input, pos, keys) == DottedKeysAt(input, q + 1, keys + [key])
  {
  }

  /** The first line after its single key, at s, a char other than '.':
      anything but '=' there is a missing '='. */
  lemma KeyLineEquals(input: string, key: string, s: nat)
    requires 0 < |input| && !IsSpace(input[0]) && input[0] != '#' && s < |input| && input[s] != '.'
    requires DottedKeysAt(input, 0, []) == Ok(([key], s))
    ensures input[s] != '=' ==> KeyValueAt(input, 0) == Err("Expected '=' after key")
  {
    assert SkipTrivia(input, 0) == 0;
    assert SkipTrivia(input, s) == s;
  }

  /** The first line's keys run to the end of the input. */
  lemma KeyLineTruncated(input: string)
    requires 0 < |input| && !IsSpace(input[0]) && input[0] != '#'
    requires DottedKeysAt(input, 0, []) == Err(END_OF_INPUT)
    ensures KeyValueAt(input, 0) == Err(END_OF_INPUT)
  {
    KeysFail(input);
  }


  /** The first line after "key =", with the value due at v: the end of
      the input, or a char that starts no value. */
  lemma KeyLineValue(input: string, key: string, s: nat, v: nat)
    requires 0 < |input| && !IsSpace(input[0]) && input[0] != '#'
    requires s < |input| && input[s] == '=' && v == SkipTrivia(input, s + 1)
    requires DottedKeysAt(input, 0, []) == Ok(([key], s))
    ensures v == |input| ==> KeyValueAt(input, 0) == Err(END_OF_INPUT)
    ensures v < |input| && input[v] != 't' && input[v] != 'f' && !Json.StartsNumber(input[v]) && !IsQuote(input[v]) &&
            input[v] != '[' && input[v] != '{' && Substr(input, v, 4) != "null" ==>
              KeyValueAt(input, 0) == Err("Invalid TOML value")
  {
    assert SkipTrivia(input, 0) == 0;
    assert SkipTrivia(input, s) == s;
    assert EqualsAt(input, s, "Expected '=' after key") == Ok(v);
    assert SkipTrivia(input, v) == v;
  }

  /** The dotted-key loop of the first line after "key.", with the next
      key due at k: the end of the input, or a char that starts no key. */
  lemma DottedKeyMissing(input: string, key: string, s: nat, k: nat)
    requires s < |input| && k == SkipTrivia(input, s + 1)
    ensures k == |input| ==> DottedKeysAt(input, s + 1, [key]) == Err(END_OF_INPUT)
    ensures k < |input| && !IsQuote(input[k]) && !IsBareKeyChar(input[k]) ==> DottedKeysAt(input, s + 1, [key]) == Err("Invalid key")
  {
    assert k < |input| && !IsQuote(input[k]) && !IsBareKeyChar(input[k]) ==> KeyAt(input, k) == Err("Invalid key");
  }


  /** The first line of a document that is neither blank nor a header
      decides: when it cannot be read, the document fails with its error. */
  lemma FirstLineFails(input: string)
    requires 0 < |input| && !IsSpace(input[0]) && input[0] != '#' && input[0] != '['
    ensures KeyValueAt(input, 0).Err? ==> Deserialized(input) == Err(KeyValueAt(input, 0).error)
  {
    assert SkipTrivia(input, 0) == 0;
  }

  /** A document whose first line is a bare key (ending at e, with white
      space and comments to s) and '=': white space and
      comments running to the end of the input are a truncated document,
      and a char that starts no value is an invalid value. */
  lemma InvalidValue(input: string, e: nat, s: nat, v: nat)
    requires 0 < |input| && IsBareKeyChar(input[0]) && e == BareKeyEnd(input, 0) && s == SkipTrivia(input, e)
    requires s < |input| && input[s] == '=' && v == SkipTrivia(input, s + 1)
    ensures v == |input| ==> Deserialized(input) == Err(END_OF_INPUT)
    ensures v < |input| && input[v] != 't' && input[v] != 'f' && !Json.StartsNumber(input[v]) && !IsQuote(input[v]) &&
            input[v] != '[' && input[v] != '{' && Substr(input, v, 4) != "null" ==>
              Deserialized(input) == Err("Invalid TOML value")
  {
    var key, s' := FirstKey(input);
    KeyLineValue(input, key, s, v);
    FirstLineFails(input);
  }

  /** A document whose first line opens with a bare key (ending at e, with
      white space and comments to s) and '.': white
      space and comments to the end of the input are a truncated document,
      and a char that starts no key after them is an empty key. */
  lemma EmptyDottedKey(input: string, e: nat, s: nat, k: nat)
    requires 0 < |input| && IsBareKeyChar(input[0]) && e == BareKeyEnd(input, 0) && s == SkipTrivia(input, e)
    requires s < |input| && input[s] == '.' && k == SkipTrivia(input, s + 1)
    ensures k == |input| ==> Deserialized(input) == Err(END_OF_INPUT)
    ensures k < |input| && !IsQuote(input[k]) && !IsBareKeyChar(input[k]) ==> Deserialized(input) == Err("Invalid key")
  {
    var key := FirstKeyDotted(input, e, s);
    DottedKeyMissing(input, key, s, k);
    KeysFail(input);
    FirstLineFails(input);
  }

  /** The dotted-key loop of the first line fails, and so does the line. */
  lemma KeysFail(input: string)
    requires 0 < |input| && !IsSpace(input[0]) && input[0] != '#'
    ensures DottedKeysAt(input, 0, []).Err? ==> KeyValueAt(input, 0) == Err(DottedKeysAt(input, 0, []).error)
  {
    assert SkipTrivia(input, 0) == 0;
  }

  /** An array whose first element is read up to e: white space and
      comments to the end of the input are a truncated document, and a
      char other than ',' and ']' is a missing separator. */
  lemma ArraySeparatorMissing(input: string, p: nat, v: Value, e: nat)
    requires p < |input| && input[p] == '['
    requires var q := SkipTrivia(input, p + 1); q < |input| && input[q] != ']' && ValueAt(input, q) == Ok(Parsed(v, e))
    ensures var s := SkipTrivia(input, e);
      (s == |input| ==> ValueAt(input, p) == Err(END_OF_INPUT)) &&
      (s < |input| && input[s] != ',' && input[s] != ']' ==> ValueAt(input, p) == Err(ARRAY_SEPARATOR))
  {
    var q := SkipTrivia(input, p + 1);
    assert SkipTrivia(input, p) == p;
    var items: seq<Value> := [];
    assert items + [v] == [v];
    assert ValueAt(input, p) == ArrayAt(input, p) == ElementsAt(input, q, items) == AfterElement(input, e, [v]);
  }

  /** An inline table whose first member is read up to e: white space and
      comments to the end of the input are a truncated document, and a
      char other than ',' and '}' is a missing separator. */
  lemma TableSeparatorMissing(input: string, p: nat, key: string, v: Value, e: nat)
    requires p < |input| && input[p] == '{'
    requires var q := SkipTrivia(input, p + 1); q < |input| && input[q] != '}' && MemberAt(input, q) == Ok((key, v, e))
    ensures var s := SkipTrivia(input, e);
      (s == |input| ==> ValueAt(input, p) == Err(END_OF_INPUT)) &&
      (s < |input| && input[s] != ',' && input[s] != '}' ==> ValueAt(input, p) == Err(TABLE_SEPARATOR))
  {
    var q := SkipTrivia(input, p + 1);
    assert SkipTrivia(input, p) == p;
    assert ValueAt(input, p) == InlineTableAt(input, p) == MembersAt(input, q, map[]) == AfterMember(input, e, map[key := v]);
  }
}
