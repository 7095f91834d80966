/** What the parser of parsers/json/json.hpp reads back from the text
    Value::serialize writes, and how it treats malformed input. */
module JsonRoundTrip {
  import opened Wrappers
  import opened Chars
  import opened StdString
  import opened Json

  // ---------------------------------------------------------------------
  // Strings

  /** Four hex digits "00" followed by two more read back as their value. */
  lemma HexPairCode(x: char, y: char)
    requires IsHexDigit(x) && IsHexDigit(y)
    ensures UnicodeCode("00" + [x, y]) == Some(HexValue(x) * 16 + HexValue(y))
  {
    var hex := "00" + [x, y];
    assert SkipSpace(hex, 0) == 0;
    assert DigitRun(hex, 0, 16) == 4 by {
      assert DigitRun(hex, 4, 16) == 0;
      assert DigitRun(hex, 3, 16) == 1;
      assert DigitRun(hex, 2, 16) == 2;
      assert DigitRun(hex, 1, 16) == 3;
    }
    assert RunValue(hex, 0, 2, 16) == 0;
    assert RunValue(hex, 0, 3, 16) == HexValue(x);
  }

  /** The four hex digits of a \u00xx escape read back as the char. */
  lemma ControlCode(c: char)
    requires c as int < 0x20
    ensures UnicodeCode("00" + [HexDigit(c as int / 16), HexDigit(c as int % 16)]) == Some(c as int)
  {
    HexPairCode(HexDigit(c as int / 16), HexDigit(c as int % 16));
  }

  /** A char other than '"' and '\\' is copied. */
  lemma PlainRead(input: string, p: nat, acc: string)
    requires p < |input| && input[p] != '"' && input[p] != '\\'
    ensures StringBody(input, p, acc) == StringBody(input, p + 1, acc + [input[p]])
  {
  }

  /** A backslash and a short escape char. */
  lemma ShortRead(input: string, p: nat, acc: string, c: char)
    requires p + 1 < |input| && input[p] == '\\' && input[p + 1] != 'u' && ShortEscape(input[p + 1]) == Some(c)
    ensures StringBody(input, p, acc) == StringBody(input, p + 2, acc + [c])
  {
    assert EscapeAt(input, p + 1) == Ok((c, p + 2));
  }

  /** A backslash, 'u' and four hex digits of a code below 0x80. */
  lemma UnicodeRead(input: string, p: nat, acc: string, c: char)
    requires p + 5 < |input| && input[p] == '\\' && input[p + 1] == 'u'
    requires UnicodeCode(input[p + 2..p + 6]) == Some(c as int) && c as int <= 0x7F
    ensures StringBody(input, p, acc) == StringBody(input, p + 6, acc + [c])
  {
    assert EscapeAt(input, p + 1) == Ok((c, p + 6));
  }

  /** The escape serialize writes for c reads back as c. */
  lemma CharRead(input: string, p: nat, c: char, acc: string)
    requires At(input, p, EscapedChar(c))
    ensures StringBody(input, p, acc) == StringBody(input, p + |EscapedChar(c)|, acc + [c])
  {
    if c != '"' && c != '\\' && c as int >= 0x20 {
      PlainCharRead(input, p, c, acc);
    } else if c as int < 0x20 && c != BACKSPACE && c != FORM_FEED && c != '\n' && c != '\r' && c != '\t' {
      ControlCharRead(input, p, c, acc);
    } else {
      ShortCharRead(input, p, c, acc);
    }
  }

  lemma PlainCharRead(input: string, p: nat, c: char, acc: string)
    requires c != '"' && c != '\\' && c as int >= 0x20 && At(input, p, EscapedChar(c))
    ensures StringBody(input, p, acc) == StringBody(input, p + |EscapedChar(c)|, acc + [c])
  {
    AtChar(input, p, EscapedChar(c), 0);
    PlainRead(input, p, acc);
  }

  /** The two-char escapes: a backslash and the char ShortEscape maps
      back to c. */
  lemma ShortText(c: char)
    requires c == '"' || c == '\\' || c == BACKSPACE || c == FORM_FEED || c == '\n' || c == '\r' || c == '\t'
    ensures |EscapedChar(c)| == 2 && EscapedChar(c)[0] == '\\' && EscapedChar(c)[1] != 'u'
    ensures ShortEscape(EscapedChar(c)[1]) == Some(c)
  {
  }

  lemma ShortCharRead(input: string, p: nat, c: char, acc: string)
    requires c == '"' || c == '\\' || c == BACKSPACE || c == FORM_FEED || c == '\n' || c == '\r' || c == '\t'
    requires At(input, p, EscapedChar(c))
    ensures StringBody(input, p, acc) == StringBody(input, p + |EscapedChar(c)|, acc + [c])
  {
    var e := EscapedChar(c);
    ShortText(c);
    AtChar(input, p, e, 0);
    AtChar(input, p, e, 1);
    ShortRead(input, p, acc, c);
  }

  /** The six-char escape of a control char: a backslash, 'u' and four hex
      digits of its code. */
  lemma ControlText(c: char)
    requires c as int < 0x20 && c != BACKSPACE && c != FORM_FEED && c != '\n' && c != '\r' && c != '\t'
    ensures |EscapedChar(c)| == 6 && EscapedChar(c)[0] == '\\' && EscapedChar(c)[1] == 'u'
    ensures UnicodeCode(EscapedChar(c)[2..6]) == Some(c as int)
  {
    ControlCode(c);
    assert EscapedChar(c)[2..6] == "00" + [HexDigit(c as int / 16), HexDigit(c as int % 16)];
  }

  lemma ControlCharRead(input: string, p: nat, c: char, acc: string)
    requires c as int < 0x20 && c != BACKSPACE && c != FORM_FEED && c != '\n' && c != '\r' && c != '\t'
    requires At(input, p, EscapedChar(c))
    ensures StringBody(input, p, acc) == StringBody(input, p + |EscapedChar(c)|, acc + [c])
  {
    var e := EscapedChar(c);
    ControlText(c);
    AtChar(input, p, e, 0);
    AtChar(input, p, e, 1);
    AtSlice(input, p, e, 2, 6);
    UnicodeRead(input, p, acc, c);
  }

  lemma EscapedCons(s: string)
    requires s != []
    ensures Escaped(s) == EscapedChar(s[0]) + Escaped(s[1..])
  {
  }

  /** A text e + r and a quote after it: e, then r and the quote. */
  lemma BodySplit(input: string, p: nat, e: string, r: string, t: string)
    requires t == e + r && At(input, p, t + "\"")
    ensures At(input, p, e) && At(input, p + |e|, r + "\"") && |t| == |e| + |r|
  {
    Assoc(e, r, "\"");
    AtSplit(input, p, e, r + "\"");
  }

  lemma BodyEnd(input: string, p: nat, acc: string)
    requires At(input, p, "\"")
    ensures StringBody(input, p, acc) == Ok(Parsed(Str(acc), p + 1))
  {
    AtChar(input, p, "\"", 0);
  }

  /** The escaped body of s and the closing quote read back as s, after the
      chars acc: the string full = acc + s, ending at e. */
  lemma {:induction false} BodyRead(input: string, p: nat, s: string, acc: string, full: string, e: nat)
    requires At(input, p, Escaped(s) + "\"") && e == p + |Escaped(s)| + 1 && full == acc + s
    ensures StringBody(input, p, acc) == Ok(Parsed(Str(full), e))
    decreases s
  {
    if s == [] {
      assert Escaped(s) + "\"" == "\"";
      BodyEnd(input, p, acc);
      assert acc + s == acc;
    } else {
      var c, rest := s[0], s[1..];
      var q := p + |EscapedChar(c)|;
      BodyNext(input, p, s, acc, full, e, c, rest, q);
      BodyRead(input, q, rest, acc + [c], full, e);
    }
  }

  /** One char of the body: the first char of s read back at p, and the
      rest of s after it at q. */
  lemma BodyNext(input: string, p: nat, s: string, acc: string, full: string, e: nat, c: char, rest: string, q: nat)
    requires s != [] && c == s[0] && rest == s[1..] && q == p + |EscapedChar(c)|
    requires At(input, p, Escaped(s) + "\"") && e == p + |Escaped(s)| + 1 && full == acc + s
    ensures At(input, q, Escaped(rest) + "\"") && e == q + |Escaped(rest)| + 1 && full == acc + [c] + rest
    ensures StringBody(input, p, acc) == StringBody(input, q, acc + [c])
  {
    BodyText(input, p, s, c, rest, q, e);
    CharRead(input, p, c, acc);
    HeadSplit(full, acc, s, c, rest);
  }

  lemma HeadSplit(full: string, acc: string, s: string, c: char, rest: string)
    requires s != [] && c == s[0] && rest == s[1..] && full == acc + s
    ensures full == acc + [c] + rest
  {
    assert s == [c] + rest;
  }

  /** The escape of the first char of s at p, and the rest of s after it
      at q. */
  lemma BodyText(input: string, p: nat, s: string, c: char, rest: string, q: nat, e: nat)
    requires s != [] && c == s[0] && rest == s[1..] && q == p + |EscapedChar(c)|
    requires At(input, p, Escaped(s) + "\"") && e == p + |Escaped(s)| + 1
    ensures At(input, p, EscapedChar(c)) && At(input, q, Escaped(rest) + "\"") && e == q + |Escaped(rest)| + 1
  {
    EscapedCons(s);
    BodySplit(input, p, EscapedChar(c), Escaped(rest), Escaped(s));
  }

  /** parse_string reads the text serialize writes for s back as s, for
      every string. */
  lemma QuotedRead(input: string, p: nat, s: string)
    requires At(input, p, Quoted(s))
    ensures StringAt(input, p) == Ok(Parsed(Str(s), p + |Quoted(s)|))
  {
    QuotedSplit(input, p, Escaped(s), Quoted(s));
    StringAtQuote(input, p);
    assert "" + s == s;
    BodyRead(input, p + 1, s, "", s, p + |Quoted(s)|);
  }

  /** The opening quote of a quoted text t, and the body after it. */
  lemma QuotedSplit(input: string, p: nat, e: string, t: string)
    requires t == "\"" + e + "\"" && At(input, p, t)
    ensures p < |input| && input[p] == '"' && At(input, p + 1, e + "\"") && |t| == |e| + 2
  {
    Assoc("\"", e, "\"");
    AtSplit(input, p, "\"", e + "\"");
    AtChar(input, p, "\"", 0);
  }

  lemma StringAtQuote(input: string, p: nat)
    requires p < |input| && input[p] == '"'
    ensures StringAt(input, p) == StringBody(input, p + 1, "")
  {
  }

  // ---------------------------------------------------------------------
  // The element and member loops, over what each pass reads

  /** One pass of the element loop: a value from start to end, then the
      separator up to next (closed when it was ']'). */
  ghost predicate ElementPass(input: string, item: Value, start: nat, end: nat, closed: bool, next: nat) {
    && start <= |input| && end <= |input|
    && ValueAt(input, start) == Ok(Parsed(item, end))
    && SeparatorAt(input, end, ']', ARRAY_SEPARATOR) == Ok((closed, next))
  }

  lemma ElementStep(input: string, q: nat, items: seq<Value>, i: nat, e: nat, closed: bool, next: nat)
    requires i < |items| && ElementPass(input, items[i], q, e, closed, next)
    ensures next <= |input|
    ensures ElementsAt(input, q, items[..i])
         == if closed then Ok(Parsed(Array(items[..i + 1]), next)) else ElementsAt(input, next, items[..i + 1])
  {
    assert items[..i] + [items[i]] == items[..i + 1];
  }

  /** The element loop from pass i on reads the remaining elements, the last
      pass being the one that meets ']'. */
  lemma {:induction false} ElementsChain(input: string, items: seq<Value>, starts: seq<nat>, ends: seq<nat>, i: nat)
    requires |starts| == |items| + 1 && |ends| == |items| && i < |items|
    requires forall j :: i <= j < |items| ==> ElementPass(input, items[j], starts[j], ends[j], j + 1 == |items|, starts[j + 1])
    ensures starts[i] <= |input|
    ensures ElementsAt(input, starts[i], items[..i]) == Ok(Parsed(Array(items), starts[|items|]))
    decreases |items| - i
  {
    var last := i + 1 == |items|;
    ElementStep(input, starts[i], items, i, ends[i], last, starts[i + 1]);
    if last {
      assert items[..i + 1] == items;
    } else {
      ElementsChain(input, items, starts, ends, i + 1);
    }
  }

  /** One pass of the member loop: a key and a value from start to end, then
      the separator up to next (closed when it was '}'). */
  ghost predicate MemberPass(input: string, key: string, value: Value, start: nat, end: nat, closed: bool, next: nat) {
    && start <= |input| && end <= |input|
    && MemberAt(input, start) == Ok((key, value, end))
    && SeparatorAt(input, end, '}', OBJECT_SEPARATOR) == Ok((closed, next))
  }

  /** The object the member loop builds from the keys and values it reads
      in order: obj[key] = value for each, so a later value for the same key
      replaces the earlier one. */
  function Collected(keys: seq<string>, values: seq<Value>): (m: map<string, Value>)
    requires |keys| == |values|
    ensures forall k :: k in m <==> k in keys
    decreases |keys|
  {
    if keys == [] then map[]
    else
      var n := |keys| - 1;
      Collected(keys[..n], values[..n])[keys[n] := values[n]]
  }

  /** A key read several times keeps the value read last. */
  lemma {:induction false} CollectedLast(keys: seq<string>, values: seq<Value>, j: nat)
    requires |keys| == |values| && j < |keys|
    requires forall l :: j < l < |keys| ==> keys[l] != keys[j]
    ensures Collected(keys, values)[keys[j]] == values[j]
    decreases |keys|
  {
    var n := |keys| - 1;
    if j < n {
      CollectedLast(keys[..n], values[..n], j);
    }
  }

  lemma MemberStep(input: string, q: nat, fields: map<string, Value>, key: string, value: Value, e: nat, closed: bool, next: nat)
    requires MemberPass(input, key, value, q, e, closed, next)
    ensures next <= |input|
    ensures MembersAt(input, q, fields)
         == if closed then Ok(Parsed(Object(fields[key := value]), next)) else MembersAt(input, next, fields[key := value])
  {
  }

  /** The member loop from pass i on reads the remaining members. */
  lemma {:induction false} MembersChain(input: string, keys: seq<string>, values: seq<Value>, starts: seq<nat>, ends: seq<nat>, i: nat)
    requires |keys| == |values| && |starts| == |keys| + 1 && |ends| == |keys| && i < |keys|
    requires forall j :: i <= j < |keys| ==> MemberPass(input, keys[j], values[j], starts[j], ends[j], j + 1 == |keys|, starts[j + 1])
    ensures starts[i] <= |input|
    ensures MembersAt(input, starts[i], Collected(keys[..i], values[..i])) == Ok(Parsed(Object(Collected(keys, values)), starts[|keys|]))
    decreases |keys| - i
  {
    var last := i + 1 == |keys|;
    assert MemberPass(input, keys[i], values[i], starts[i], ends[i], last, starts[i + 1]);
    MemberStep(input, starts[i], Collected(keys[..i], values[..i]), keys[i], values[i], ends[i], last, starts[i + 1]);
    assert keys[..i + 1][..i] == keys[..i] && values[..i + 1][..i] == values[..i];
    if last {
      assert keys[..i + 1] == keys && values[..i + 1] == values;
    } else {
      MembersChain(input, keys, values, starts, ends, i + 1);
    }
  }

  lemma SeparatorClose(input: string, e: nat, close: char, message: string)
    requires e < |input| && input[e] == close && !IsSpace(close)
    ensures SeparatorAt(input, e, close, message) == Ok((true, e + 1))
  {
  }

  lemma SeparatorComma(input: string, e: nat, close: char, message: string)
    requires e + 1 < |input| && input[e] == ',' && close != ',' && !IsSpace(input[e + 1])
    ensures SeparatorAt(input, e, close, message) == Ok((false, e + 1))
  {
  }

  // ---------------------------------------------------------------------
  // Text positions

  /** The first char of a serialized value: never white space, and it tells
      the kind of the value. */
  function Lead(v: Value): char {
    match v
    case Null => 'n'
    case Bool(b) => if b then 't' else 'f'
    case Number(_) => '0'
    case Str(_) => '"'
    case Array(_) => '['
    case Object(_) => '{'
  }

  lemma SerializedLead(v: Value)
    requires NumberFree(v)
    ensures Serialized(v) != [] && Serialized(v)[0] == Lead(v) && !IsSpace(Lead(v))
  {
  }

  /** A serialized value at p: no white space in front of it. */
  lemma LeadAt(input: string, p: nat, v: Value)
    requires NumberFree(v) && At(input, p, Serialized(v))
    ensures p < |input| && input[p] == Lead(v) && SkipSpace(input, p) == p
  {
    SerializedLead(v);
    AtChar(input, p, Serialized(v), 0);
  }

  /** The separator in front of element or member i. */
  function Sep(i: nat): nat { if i > 0 then 1 else 0 }

  // ---------------------------------------------------------------------
  // Pieces joined by ',' and the char that closes them

  /** The first k pieces, separated by ','. */
  function Join(ts: seq<string>, k: nat): string
    requires k <= |ts|
  {
    if k == 0 then ""
    else if k == 1 then ts[0]
    else Join(ts, k - 1) + "," + ts[k - 1]
  }

  /** Every piece starts with a char that is not white space and does not
      close a bracket. */
  ghost predicate Leads(ts: seq<string>) {
    forall i :: 0 <= i < |ts| ==> ts[i] != [] && Opening(ts[i][0])
  }

  predicate Opening(c: char) {
    !IsSpace(c) && c != ']' && c != '}'
  }

  lemma JoinNext(ts: seq<string>, j: nat)
    requires j < |ts|
    ensures Join(ts, j + 1) == Join(ts, j) + (if j > 0 then "," else "") + ts[j]
  {
  }

  lemma {:induction false} JoinPrefix(ts: seq<string>, j: nat, k: nat)
    requires j <= k <= |ts|
    ensures |Join(ts, j)| <= |Join(ts, k)| && Join(ts, k)[..|Join(ts, j)|] == Join(ts, j)
    decreases k
  {
    if j < k {
      JoinPrefix(ts, j, k - 1);
      JoinNext(ts, k - 1);
    }
  }

  /** Where piece j lies in a joined text at b. */
  lemma PieceAt(input: string, b: nat, ts: seq<string>, close: char, j: nat)
    requires j < |ts| && At(input, b, Join(ts, |ts|) + [close])
    ensures At(input, b, Join(ts, j + 1))
    ensures At(input, b + |Join(ts, j)| + Sep(j), ts[j])
    ensures |Join(ts, j + 1)| == |Join(ts, j)| + Sep(j) + |ts[j]|
  {
    var body := Join(ts, |ts|) + [close];
    var upto := Join(ts, j + 1);
    JoinPrefix(ts, j + 1, |ts|);
    assert body[..|upto|] == upto;
    AtSlice(input, b, body, 0, |upto|);
    JoinNext(ts, j);
    AtSplit(input, b, Join(ts, j) + (if j > 0 then "," else ""), ts[j]);
  }

  /** After piece j: the closing char after the last piece, ',' and the
      lead of the next piece otherwise. */
  lemma AfterPieceAt(input: string, b: nat, ts: seq<string>, close: char, j: nat)
    requires j < |ts| && Leads(ts) && At(input, b, Join(ts, |ts|) + [close])
    ensures SeparatorText(input, b + |Join(ts, j + 1)|, close, j + 1 == |ts|)
  {
    var e := b + |Join(ts, j + 1)|;
    if j + 1 == |ts| {
      AtChar(input, b, Join(ts, |ts|) + [close], |Join(ts, j + 1)|);
    } else {
      PieceAt(input, b, ts, close, j + 1);
      JoinNext(ts, j + 1);
      AtChar(input, b, Join(ts, j + 2), |Join(ts, j + 1)|);
      AtChar(input, e + 1, ts[j + 1], 0);
    }
  }

  /** Piece j of ts joined at b runs from q to e, and the separator after
      it follows. */
  lemma PieceFacts(input: string, b: nat, ts: seq<string>, close: char, j: nat, q: nat, e: nat)
    requires j < |ts| && Leads(ts) && At(input, b, Join(ts, |ts|) + [close])
    requires q == b + |Join(ts, j)| + Sep(j) && e == b + |Join(ts, j + 1)|
    ensures At(input, q, ts[j]) && e == q + |ts[j]|
    ensures SeparatorText(input, e, close, j + 1 == |ts|)
  {
    PieceAt(input, b, ts, close, j);
    AfterPieceAt(input, b, ts, close, j);
  }

  /** At e: the closing char, or ',' and the start of a value. */
  predicate SeparatorText(input: string, e: nat, close: char, closed: bool) {
    && e < |input|
    && (closed ==> input[e] == close)
    && (!closed ==> input[e] == ',' && e + 1 < |input| && !IsSpace(input[e + 1]))
  }

  // ---------------------------------------------------------------------
  // Arrays

  /** The serialized elements of an array. */
  function ElementTexts(v: Value): (ts: seq<string>)
    requires v.Array? && NumberFree(v)
    ensures |ts| == |v.items| && Leads(ts)
    ensures forall j {:trigger Serialized(v.items[j])} :: 0 <= j < |ts| ==> ts[j] == Serialized(v.items[j])
  {
    var ts := seq(|v.items|, j requires 0 <= j < |v.items| => Serialized(v.items[j]));
    forall j | 0 <= j < |ts|
      ensures ts[j] != [] && Opening(ts[j][0])
    {
      SerializedLead(v.items[j]);
    }
    ts
  }

  lemma {:induction false} ElementsJoin(v: Value, k: nat)
    requires v.Array? && NumberFree(v) && k <= |v.items|
    ensures ElementsText(v, k) == Join(ElementTexts(v), k)
    decreases k
  {
    if k > 1 {
      ElementsJoin(v, k - 1);
    }
  }

  /** A serialized value and a separator after it make a pass of the
      element loop. */
  lemma {:induction false} ElementTextPass(input: string, item: Value, q: nat, e: nat, closed: bool, next: nat)
    requires NumberFree(item) && At(input, q, Serialized(item)) && e == q + |Serialized(item)| && next == e + 1
    requires SeparatorText(input, e, ']', closed)
    ensures ElementPass(input, item, q, e, closed, next)
    decreases item, 6
  {
    ValueRead(input, q, item);
    if closed {
      SeparatorClose(input, e, ']', ARRAY_SEPARATOR);
    } else {
      SeparatorComma(input, e, ']', ARRAY_SEPARATOR);
    }
  }

  /** Pass j of the element loop over pieces ts joined at b, piece j being
      the serialized item. */
  lemma {:induction false} ElementFacts(input: string, b: nat, ts: seq<string>, j: nat, item: Value, q: nat, e: nat, next: nat)
    requires j < |ts| && Leads(ts) && NumberFree(item) && ts[j] == Serialized(item)
    requires At(input, b, Join(ts, |ts|) + "]")
    requires q == b + |Join(ts, j)| + Sep(j) && e == b + |Join(ts, j + 1)| && next == e + 1
    ensures ElementPass(input, item, q, e, j + 1 == |ts|, next)
    decreases item, 7
  {
    PieceFacts(input, b, ts, ']', j, q, e);
    ElementTextPass(input, item, q, e, j + 1 == |ts|, next);
  }

  /** parse_array at a '[' that opens pieces ts joined and closed by ']':
      the empty array, or the element loop from the first piece. */
  lemma ArrayOpen(input: string, p: nat, ts: seq<string>)
    requires p < |input| && input[p] == '[' && Leads(ts) && At(input, p + 1, Join(ts, |ts|) + "]")
    ensures ArrayAt(input, p) == if ts == [] then Ok(Parsed(Array([]), p + 2)) else ElementsAt(input, p + 1, [])
  {
    if ts == [] {
      AtChar(input, p + 1, Join(ts, |ts|) + "]", 0);
      ArrayClosed(input, p);
    } else {
      PieceAt(input, p + 1, ts, ']', 0);
      AtChar(input, p + 1, ts[0], 0);
      ArrayOpened(input, p);
    }
  }

  lemma ArrayClosed(input: string, p: nat)
    requires p + 1 < |input| && input[p] == '[' && input[p + 1] == ']'
    ensures ArrayAt(input, p) == Ok(Parsed(Array([]), p + 2))
  {
    assert SkipSpace(input, p + 1) == p + 1;
  }

  lemma ArrayOpened(input: string, p: nat)
    requires p + 1 < |input| && input[p] == '[' && Opening(input[p + 1])
    ensures ArrayAt(input, p) == ElementsAt(input, p + 1, [])
  {
    assert SkipSpace(input, p + 1) == p + 1;
  }

  /** The element loop reads the serialized elements ts of v joined at b. */
  lemma {:induction false} ElementsRead(input: string, b: nat, v: Value, ts: seq<string>, e: nat)
    requires v.Array? && NumberFree(v) && |ts| == |v.items| > 0 && Leads(ts)
    requires forall j {:trigger Serialized(v.items[j])} :: 0 <= j < |ts| ==> ts[j] == Serialized(v.items[j])
    requires At(input, b, Join(ts, |ts|) + "]") && e == b + |Join(ts, |ts|)| + 1
    ensures ElementsAt(input, b, []) == Ok(Parsed(v, e))
    decreases v, 0
  {
    var n := |ts|;
    var starts := Starts(b, ts);
    var ends := Ends(b, ts);
    forall j | 0 <= j < n
      ensures ElementPass(input, v.items[j], starts[j], ends[j], j + 1 == n, starts[j + 1])
    {
      ElementFacts(input, b, ts, j, v.items[j], starts[j], ends[j], starts[j + 1]);
    }
    assert v == Array(v.items);
    ElementsFromStart(input, v.items, starts, ends, b, e);
  }

  lemma ElementsFromStart(input: string, items: seq<Value>, starts: seq<nat>, ends: seq<nat>, b: nat, e: nat)
    requires |starts| == |items| + 1 && |ends| == |items| && 0 < |items|
    requires forall j :: 0 <= j < |items| ==> ElementPass(input, items[j], starts[j], ends[j], j + 1 == |items|, starts[j + 1])
    requires starts[0] == b && b <= |input| && starts[|items|] == e
    ensures ElementsAt(input, b, []) == Ok(Parsed(Array(items), e))
  {
    ElementsChain(input, items, starts, ends, 0);
    assert items[..0] == [];
  }

  /** Where each pass of a loop over pieces ts joined at b starts. */
  function Starts(b: nat, ts: seq<string>): (starts: seq<nat>)
    ensures |starts| == |ts| + 1
    ensures forall j :: 0 <= j <= |ts| ==> starts[j] == b + |Join(ts, j)| + Sep(j)
  {
    seq(|ts| + 1, j requires 0 <= j <= |ts| => b + |Join(ts, j)| + Sep(j))
  }

  /** Where each piece of ts joined at b ends. */
  function Ends(b: nat, ts: seq<string>): (ends: seq<nat>)
    ensures |ends| == |ts|
    ensures forall j :: 0 <= j < |ts| ==> ends[j] == b + |Join(ts, j + 1)|
  {
    seq(|ts|, j requires 0 <= j < |ts| => b + |Join(ts, j + 1)|)
  }

  /** A serialized array at p: '[' and the serialized elements joined
      and closed by ']'. */
  lemma ArrayTextAt(input: string, p: nat, v: Value)
    requires v.Array? && NumberFree(v) && At(input, p, Serialized(v))
    ensures p < |input| && input[p] == '['
    ensures At(input, p + 1, Join(ElementTexts(v), |v.items|) + "]")
    ensures |Serialized(v)| == |Join(ElementTexts(v), |v.items|)| + 2
  {
    var body := Join(ElementTexts(v), |v.items|) + "]";
    ElementsJoin(v, |v.items|);
    assert Serialized(v) == "[" + body;
    AtSplit(input, p, "[", body);
    AtChar(input, p, "[", 0);
  }

  /** parse_array reads a serialized array back. */
  lemma {:induction false} ArrayRead(input: string, p: nat, v: Value)
    requires v.Array? && NumberFree(v) && At(input, p, Serialized(v))
    ensures ArrayAt(input, p) == Ok(Parsed(v, p + |Serialized(v)|))
    decreases v, 2
  {
    ArrayTextAt(input, p, v);
    ArrayJoinedRead(input, p, v, ElementTexts(v), p + |Serialized(v)|);
  }

  /** parse_array reads the serialized elements ts of v, joined and
      bracketed at p, back as v. */
  lemma {:induction false} ArrayJoinedRead(input: string, p: nat, v: Value, ts: seq<string>, e: nat)
    requires v.Array? && NumberFree(v) && |ts| == |v.items| && Leads(ts)
    requires forall j {:trigger Serialized(v.items[j])} :: 0 <= j < |ts| ==> ts[j] == Serialized(v.items[j])
    requires p < |input| && input[p] == '[' && At(input, p + 1, Join(ts, |ts|) + "]")
    requires e == p + |Join(ts, |ts|)| + 2
    ensures ArrayAt(input, p) == Ok(Parsed(v, e))
    decreases v, 1
  {
    ArrayOpen(input, p, ts);
    if ts == [] {
      assert v == Array([]) && e == p + 2;
    } else {
      ElementsRead(input, p + 1, v, ts, e);
      assert ArrayAt(input, p) == ElementsAt(input, p + 1, []);
    }
  }

  // ---------------------------------------------------------------------
  // Values

  lemma NullRead(input: string, p: nat, v: Value, e: nat)
    requires v.Null? && At(input, p, Serialized(v)) && e == p + |Serialized(v)|
    ensures ValueAt(input, p) == Ok(Parsed(v, e))
  {
    AtChar(input, p, "null", 0);
    assert Substr(input, p, 4) == "null";
  }

  lemma BoolRead(input: string, p: nat, v: Value, e: nat)
    requires v.Bool? && At(input, p, Serialized(v)) && e == p + |Serialized(v)|
    ensures ValueAt(input, p) == Ok(Parsed(v, e))
  {
    if v.b {
      AtChar(input, p, "true", 0);
      assert Substr(input, p, 4) == "true";
    } else {
      AtChar(input, p, "false", 0);
      assert Substr(input, p, 4)[0] == 'f';
      assert Substr(input, p, 5) == "false";
    }
  }

  /** parse_value at '"' hands over to parse_string. */
  lemma StringValueRead(input: string, p: nat, v: Value, e: nat)
    requires v.Str? && At(input, p, Serialized(v)) && e == p + |Serialized(v)|
    ensures ValueAt(input, p) == Ok(Parsed(v, e))
  {
    AtChar(input, p, Quoted(v.s), 0);
    QuotedRead(input, p, v.s);
    assert SkipSpace(input, p) == p;
  }

  /** parse_value at '[' hands over to parse_array. */
  lemma {:induction false} ArrayValueRead(input: string, p: nat, v: Value, e: nat)
    requires v.Array? && NumberFree(v) && At(input, p, Serialized(v)) && e == p + |Serialized(v)|
    ensures ValueAt(input, p) == Ok(Parsed(v, e))
    decreases v, 4
  {
    LeadAt(input, p, v);
    ArrayRead(input, p, v);
  }

  /** parse_value at '{' hands over to parse_object. */
  lemma {:induction false} ObjectValueRead(input: string, p: nat, v: Value, e: nat)
    requires v.Object? && NumberFree(v) && At(input, p, Serialized(v)) && e == p + |Serialized(v)|
    ensures ValueAt(input, p) == Ok(Parsed(v, e))
    decreases v, 4
  {
    LeadAt(input, p, v);
    ValueAtObject(input, p);
    ObjectSerializedRead(input, p, v, e);
  }

  /** parse_object reads the text serialize writes for an object back. */
  lemma {:induction false} ObjectSerializedRead(input: string, p: nat, v: Value, e: nat)
    requires v.Object? && NumberFree(v) && At(input, p, Serialized(v)) && e == p + |Serialized(v)|
    ensures ObjectAt(input, p) == Ok(Parsed(v, e))
    decreases v, 3
  {
    var keys := ObjectKeys(v.fields);
    ObjectKeysText(v, keys);
    ObjectRead(input, p, v, keys, e);
  }

  /** parse_value reads the text serialize writes for v back as v, at any
      position of any input, whatever follows the text. */
  lemma {:induction false} ValueRead(input: string, p: nat, v: Value)
    requires NumberFree(v) && At(input, p, Serialized(v))
    ensures ValueAt(input, p) == Ok(Parsed(v, p + |Serialized(v)|))
    decreases v, 5
  {
    var e := p + |Serialized(v)|;
    if v.Null? {
      NullRead(input, p, v, e);
    } else if v.Bool? {
      BoolRead(input, p, v, e);
    } else if v.Str? {
      StringValueRead(input, p, v, e);
    } else if v.Array? {
      ArrayValueRead(input, p, v, e);
    } else {
      ObjectValueRead(input, p, v, e);
    }
  }

  // ---------------------------------------------------------------------
  // Objects, with the members in any order

  /** keys lists exactly the keys of the object, in some order. */
  ghost predicate Covers(v: Value, keys: seq<string>)
    requires v.Object?
  {
    forall k :: k in keys <==> k in v.fields
  }

  /** The members of an object written in the order of keys, and the
      closing '}'. */
  function ObjectBody(v: Value, keys: seq<string>): string
    requires v.Object? && NumberFree(v) && Covers(v, keys)
  {
    MembersText(v, keys, |keys|) + "}"
  }

  lemma ObjectKeysText(v: Value, keys: seq<string>)
    requires v.Object? && NumberFree(v) && keys == ObjectKeys(v.fields)
    ensures Covers(v, keys) && Serialized(v) == "{" + ObjectBody(v, keys)
    ensures |Serialized(v)| == 1 + |ObjectBody(v, keys)|
  {
  }

  /** parse_value at '{' hands over to parse_object. */
  lemma ValueAtObject(input: string, p: nat)
    requires p < |input| && input[p] == '{' && SkipSpace(input, p) == p
    ensures ValueAt(input, p) == ObjectAt(input, p)
  {
  }

  /** The values of the keys, in their order. */
  function ValuesOf(v: Value, keys: seq<string>): (values: seq<Value>)
    requires v.Object? && Covers(v, keys)
    ensures |values| == |keys| && forall j :: 0 <= j < |keys| ==> values[j] == v.fields[keys[j]]
  {
    seq(|keys|, j requires 0 <= j < |keys| => v.fields[keys[j]])
  }

  /** Reading the members in the order of keys collects the object. */
  lemma {:induction false} CollectedCovers(fields: map<string, Value>, keys: seq<string>, values: seq<Value>)
    requires |keys| == |values| && forall j :: 0 <= j < |keys| ==> keys[j] in fields && values[j] == fields[keys[j]]
    ensures Collected(keys, values) == map k | k in fields && k in keys :: fields[k]
    decreases |keys|
  {
    if keys != [] {
      var n := |keys| - 1;
      CollectedCovers(fields, keys[..n], values[..n]);
      assert keys == keys[..n] + [keys[n]];
    }
  }

  /** The members of an object in the order of keys. */
  function MemberTexts(v: Value, keys: seq<string>): (ts: seq<string>)
    requires v.Object? && NumberFree(v)
    ensures |ts| == |keys| && Leads(ts)
    ensures forall j {:trigger Member(v, keys[j])} :: 0 <= j < |ts| ==> ts[j] == Member(v, keys[j])
  {
    seq(|keys|, j requires 0 <= j < |keys| => Member(v, keys[j]))
  }

  lemma {:induction false} MembersJoin(v: Value, keys: seq<string>, k: nat)
    requires v.Object? && NumberFree(v) && k <= |keys|
    ensures MembersText(v, keys, k) == Join(MemberTexts(v, keys), k)
    decreases k
  {
    if k > 1 {
      MembersJoin(v, keys, k - 1);
    }
  }

  /** A quoted key and ':' read back as the key. */
  lemma KeyRead(input: string, q: nat, key: string)
    requires At(input, q, Quoted(key) + ":")
    ensures KeyAt(input, q) == Ok((key, q + |Quoted(key)| + 1))
  {
    var quoted := Quoted(key);
    AtSplit(input, q, quoted, ":");
    AtChar(input, q, quoted, 0);
    AtChar(input, q + |quoted|, ":", 0);
    QuotedRead(input, q, key);
    KeyAfterString(input, q, key, q + |quoted|);
  }

  lemma KeyAfterString(input: string, q: nat, key: string, t: nat)
    requires q < |input| && input[q] == '"' && StringAt(input, q) == Ok(Parsed(Str(key), t))
    requires t < |input| && input[t] == ':'
    ensures KeyAt(input, q) == Ok((key, t + 1))
  {
    assert SkipSpace(input, q) == q;
    assert SkipSpace(input, t) == t;
  }

  lemma MemberGlue(input: string, q: nat, key: string, t: nat, value: Value, e: nat)
    requires q <= |input| && KeyAt(input, q) == Ok((key, t)) && t <= |input| && SkipSpace(input, t) == t
    requires ValueAt(input, t) == Ok(Parsed(value, e))
    ensures MemberAt(input, q) == Ok((key, value, e))
  {
  }

  /** A key text k, ':' and a value text s: the key and ':', then the
      value at t. */
  lemma MemberSplit(input: string, q: nat, k: string, s: string, t: nat)
    requires At(input, q, k + ":" + s) && t == q + |k| + 1
    ensures At(input, q, k + ":") && At(input, t, s)
  {
    AtSplit(input, q, k + ":", s);
  }

  /** After a key read up to t, a serialized value there completes the
      member. */
  lemma {:induction false} ValueAfterKey(input: string, q: nat, key: string, t: nat, value: Value, e: nat)
    requires q <= |input| && KeyAt(input, q) == Ok((key, t))
    requires NumberFree(value) && At(input, t, Serialized(value)) && e == t + |Serialized(value)|
    ensures MemberAt(input, q) == Ok((key, value, e))
    decreases value, 6
  {
    LeadAt(input, t, value);
    ValueRead(input, t, value);
    MemberGlue(input, q, key, t, value, e);
  }

  /** One serialized member reads back as its key and value. */
  lemma {:induction false} MemberRead(input: string, q: nat, key: string, value: Value, e: nat)
    requires NumberFree(value) && At(input, q, Quoted(key) + ":" + Serialized(value))
    requires e == q + |Quoted(key)| + 1 + |Serialized(value)|
    ensures MemberAt(input, q) == Ok((key, value, e))
    decreases value, 7
  {
    var t := q + |Quoted(key)| + 1;
    MemberSplit(input, q, Quoted(key), Serialized(value), t);
    KeyRead(input, q, key);
    assert e == t + |Serialized(value)|;
    ValueAfterKey(input, q, key, t, value, e);
  }

  /** A serialized member and a separator after it make a pass of the
      member loop. */
  lemma {:induction false} MemberTextPass(input: string, key: string, value: Value, q: nat, e: nat, closed: bool, next: nat)
    requires NumberFree(value) && At(input, q, Quoted(key) + ":" + Serialized(value))
    requires e == q + |Quoted(key)| + 1 + |Serialized(value)| && next == e + 1
    requires SeparatorText(input, e, '}', closed)
    ensures MemberPass(input, key, value, q, e, closed, next)
    decreases value, 8
  {
    MemberRead(input, q, key, value, e);
    if closed {
      SeparatorClose(input, e, '}', OBJECT_SEPARATOR);
    } else {
      SeparatorComma(input, e, '}', OBJECT_SEPARATOR);
    }
  }

  /** Pass j of the member loop over pieces ts joined at b, piece j being
      the serialized key and value. */
  lemma {:induction false} MemberFacts(input: string, b: nat, ts: seq<string>, j: nat, key: string, value: Value, q: nat, e: nat, next: nat)
    requires j < |ts| && Leads(ts) && NumberFree(value) && ts[j] == Quoted(key) + ":" + Serialized(value)
    requires At(input, b, Join(ts, |ts|) + "}")
    requires q == b + |Join(ts, j)| + Sep(j) && e == b + |Join(ts, j + 1)| && next == e + 1
    ensures MemberPass(input, key, value, q, e, j + 1 == |ts|, next)
    decreases value, 9
  {
    PieceFacts(input, b, ts, '}', j, q, e);
    MemberTextPass(input, key, value, q, e, j + 1 == |ts|, next);
  }

  /** parse_object at a '{' that opens pieces ts joined and closed by '}':
      the empty object, or the member loop from the first piece. */
  lemma ObjectOpen(input: string, p: nat, ts: seq<string>)
    requires p < |input| && input[p] == '{' && Leads(ts) && At(input, p + 1, Join(ts, |ts|) + "}")
    ensures ObjectAt(input, p) == if ts == [] then Ok(Parsed(Object(map[]), p + 2)) else MembersAt(input, p + 1, map[])
  {
    if ts == [] {
      AtChar(input, p + 1, Join(ts, |ts|) + "}", 0);
      ObjectClosed(input, p);
    } else {
      PieceAt(input, p + 1, ts, '}', 0);
      AtChar(input, p + 1, ts[0], 0);
      ObjectOpened(input, p);
    }
  }

  lemma ObjectClosed(input: string, p: nat)
    requires p + 1 < |input| && input[p] == '{' && input[p + 1] == '}'
    ensures ObjectAt(input, p) == Ok(Parsed(Object(map[]), p + 2))
  {
    assert SkipSpace(input, p + 1) == p + 1;
  }

  lemma ObjectOpened(input: string, p: nat)
    requires p + 1 < |input| && input[p] == '{' && Opening(input[p + 1])
    ensures ObjectAt(input, p) == MembersAt(input, p + 1, map[])
  {
    assert SkipSpace(input, p + 1) == p + 1;
  }

  /** The member loop reads the members ts of v, written in the order of
      keys and joined at b, back as v. */
  lemma {:induction false} MembersRead(input: string, b: nat, v: Value, keys: seq<string>, ts: seq<string>, e: nat)
    requires v.Object? && NumberFree(v) && Covers(v, keys) && |ts| == |keys| > 0 && Leads(ts)
    requires forall j {:trigger Serialized(v.fields[keys[j]])} :: 0 <= j < |ts| ==> ts[j] == Quoted(keys[j]) + ":" + Serialized(v.fields[keys[j]])
    requires At(input, b, Join(ts, |ts|) + "}") && e == b + |Join(ts, |ts|)| + 1
    ensures MembersAt(input, b, map[]) == Ok(Parsed(v, e))
    decreases v, 0
  {
    var n := |ts|;
    var values := ValuesOf(v, keys);
    var starts := Starts(b, ts);
    var ends := Ends(b, ts);
    forall j | 0 <= j < n
      ensures MemberPass(input, keys[j], values[j], starts[j], ends[j], j + 1 == n, starts[j + 1])
    {
      assert keys[j] in v.fields && values[j] == v.fields[keys[j]];
      MemberFacts(input, b, ts, j, keys[j], values[j], starts[j], ends[j], starts[j + 1]);
    }
    CollectedCovers(v.fields, keys, values);
    assert Collected(keys, values) == v.fields;
    assert v == Object(Collected(keys, values));
    MembersFromStart(input, keys, values, starts, ends, b, e);
  }

  lemma MembersFromStart(input: string, keys: seq<string>, values: seq<Value>, starts: seq<nat>, ends: seq<nat>, b: nat, e: nat)
    requires |keys| == |values| && |starts| == |keys| + 1 && |ends| == |keys| && 0 < |keys|
    requires forall j :: 0 <= j < |keys| ==> MemberPass(input, keys[j], values[j], starts[j], ends[j], j + 1 == |keys|, starts[j + 1])
    requires starts[0] == b && b <= |input| && starts[|keys|] == e
    ensures MembersAt(input, b, map[]) == Ok(Parsed(Object(Collected(keys, values)), e))
  {
    MembersChain(input, keys, values, starts, ends, 0);
    assert Collected(keys[..0], values[..0]) == map[];
  }

  /** A serialized object at p, its members written in the order of keys:
      '{' and the members joined and closed by '}'. */
  lemma ObjectTextAt(input: string, p: nat, v: Value, keys: seq<string>)
    requires v.Object? && NumberFree(v) && Covers(v, keys) && At(input, p, "{" + ObjectBody(v, keys))
    ensures p < |input| && input[p] == '{'
    ensures At(input, p + 1, Join(MemberTexts(v, keys), |keys|) + "}")
    ensures |ObjectBody(v, keys)| == |Join(MemberTexts(v, keys), |keys|)| + 1
  {
    var body := Join(MemberTexts(v, keys), |keys|) + "}";
    MembersJoin(v, keys, |keys|);
    assert ObjectBody(v, keys) == body;
    AtSplit(input, p, "{", body);
    AtChar(input, p, "{", 0);
  }

  /** parse_object reads an object written with its members in any order
      back as the object. */
  lemma {:induction false} ObjectRead(input: string, p: nat, v: Value, keys: seq<string>, e: nat)
    requires v.Object? && NumberFree(v) && Covers(v, keys) && At(input, p, "{" + ObjectBody(v, keys))
    requires e == p + 1 + |ObjectBody(v, keys)|
    ensures ObjectAt(input, p) == Ok(Parsed(v, e))
    decreases v, 2
  {
    ObjectTextAt(input, p, v, keys);
    ObjectJoinedRead(input, p, v, keys, MemberTexts(v, keys), e);
  }

  /** parse_object reads the members ts of v, written in the order of keys,
      joined and braced at p, back as v. */
  lemma {:induction false} ObjectJoinedRead(input: string, p: nat, v: Value, keys: seq<string>, ts: seq<string>, e: nat)
    requires v.Object? && NumberFree(v) && Covers(v, keys) && |ts| == |keys| && Leads(ts)
    requires forall j {:trigger Serialized(v.fields[keys[j]])} :: 0 <= j < |ts| ==> ts[j] == Quoted(keys[j]) + ":" + Serialized(v.fields[keys[j]])
    requires p < |input| && input[p] == '{' && At(input, p + 1, Join(ts, |ts|) + "}")
    requires e == p + |Join(ts, |ts|)| + 2
    ensures ObjectAt(input, p) == Ok(Parsed(v, e))
    decreases v, 1
  {
    ObjectOpen(input, p, ts);
    if ts == [] {
      assert v.fields == map[];
      assert v == Object(map[]) && e == p + 2;
    } else {
      MembersRead(input, p + 1, v, keys, ts, e);
      assert ObjectAt(input, p) == MembersAt(input, p + 1, map[]);
    }
  }

  // ---------------------------------------------------------------------
  // Parser::deserialize

  /** deserialize reads back every value serialize writes without a number,
      whatever text follows it: the rest of the input is never looked at. */
  lemma DeserializeSerialized(v: Value, rest: string)
    requires NumberFree(v)
    ensures Deserialized(Serialized(v) + rest) == Ok(v)
  {
    var input := Serialized(v) + rest;
    assert input[0..|Serialized(v)|] == Serialized(v);
    ValueRead(input, 0, v);
  }

  /** An input of white space only, the empty input among them, is a
      truncated document: deserialize fails at its end. */
  lemma BlankFails(input: string)
    requires forall k :: 0 <= k < |input| ==> IsSpace(input[k])
    ensures Deserialized(input) == Err(END_OF_INPUT)
  {
    var p := SkipSpace(input, 0);
    assert p == |input|;
  }

  /** The escaped text of s read without a closing quote: the chars of s,
      and the cursor after the text. */
  lemma {:induction false} EscapedRun(input: string, p: nat, s: string, acc: string, e: nat)
    requires At(input, p, Escaped(s)) && e == p + |Escaped(s)|
    ensures e <= |input| && StringBody(input, p, acc) == StringBody(input, e, acc + s)
    decreases s
  {
    if s == [] {
      assert acc + s == acc;
    } else {
      var q := EscapedStep(input, p, s, acc);
      EscapedRun(input, q, s[1..], acc + [s[0]], e);
      ConsAfter(acc, s);
    }
  }

  lemma ConsAfter(acc: string, s: string)
    requires s != []
    ensures acc + [s[0]] + s[1..] == acc + s
  {
    assert s == [s[0]] + s[1..];
  }

  /** The first char of s read from its escape, and the cursor q after it. */
  lemma EscapedStep(input: string, p: nat, s: string, acc: string) returns (q: nat)
    requires s != [] && At(input, p, Escaped(s))
    ensures q == p + |EscapedChar(s[0])| && At(input, q, Escaped(s[1..]))
    ensures q + |Escaped(s[1..])| == p + |Escaped(s)|
    ensures StringBody(input, p, acc) == StringBody(input, q, acc + [s[0]])
  {
    EscapedCons(s);
    AtSplit(input, p, EscapedChar(s[0]), Escaped(s[1..]));
    CharRead(input, p, s[0], acc);
    q := p + |EscapedChar(s[0])|;
  }

  /** A string opened with '"' and the text of s: the loop goes on at p
      with the chars of s read. */
  lemma StringOpened(input: string, s: string, p: nat)
    requires At(input, 0, "\"" + Escaped(s)) && p == 1 + |Escaped(s)|
    ensures p <= |input| && ValueAt(input, 0) == StringBody(input, p, s)
  {
    AtSplit(input, 0, "\"", Escaped(s));
    AtChar(input, 0, "\"", 0);
    StringFirst(input);
    assert "" + s == s;
    EscapedRun(input, 1, s, "", p);
  }

  lemma StringFirst(input: string)
    requires 0 < |input| && input[0] == '"'
    ensures ValueAt(input, 0) == StringBody(input, 1, "")
  {
    assert SkipSpace(input, 0) == 0;
  }

  /** A string the input ends inside is a truncated document. */
  lemma UnterminatedString(s: string)
    ensures Deserialized("\"" + Escaped(s)) == Err(END_OF_INPUT)
  {
    var input := "\"" + Escaped(s);
    assert At(input, 0, input);
    StringOpened(input, s, |input|);
    assert StringBody(input, |input|, s) == Err(END_OF_INPUT);
  }

  /** A backslash followed by a char that starts no escape. */
  lemma UnknownEscape(s: string, c: char, rest: string)
    requires c != 'u' && ShortEscape(c).None?
    ensures Deserialized("\"" + Escaped(s) + "\\" + [c] + rest) == Err("Invalid escape sequence")
  {
    var front := "\"" + Escaped(s);
    var input := front + "\\" + [c] + rest;
    assert At(input, 0, front) by {
      assert input[..|front|] == front;
    }
    assert input[|front|] == '\\' && input[|front| + 1] == c;
    StringOpened(input, s, |front|);
    assert EscapeAt(input, |front| + 1) == Err("Invalid escape sequence");
  }

  /** A \u escape whose four hex digits name a code above 0x7F: the parser
      reads only ASCII escapes. */
  lemma WideUnicodeEscape(s: string, hex: string, rest: string)
    requires |hex| == 4 && UnicodeCode(hex).Some? && UnicodeCode(hex).value > 0x7F
    ensures Deserialized("\"" + Escaped(s) + "\\u" + hex + rest) == Err("Unicode characters > 0x7F not supported")
  {
    var front := "\"" + Escaped(s);
    var input := front + "\\u" + hex + rest;
    var p := |front|;
    assert At(input, 0, front) by {
      assert input[..p] == front;
    }
    assert input[p] == '\\' && input[p + 1] == 'u' && input[p + 2..p + 6] == hex;
    StringOpened(input, s, p);
    assert EscapeAt(input, p + 1) == Err("Unicode characters > 0x7F not supported");
  }

  /** An array whose first element is not ']': the element loop decides. */
  lemma ArrayFirst(input: string)
    requires 1 < |input| && input[0] == '[' && !IsSpace(input[1]) && input[1] != ']'
    ensures Deserialized(input) == match ElementsAt(input, 1, [])
      case Err(e) => Err(e)
      case Ok(r) => Ok(r.value)
  {
    assert SkipSpace(input, 0) == 0 && SkipSpace(input, 1) == 1;
    assert ValueAt(input, 0) == ArrayAt(input, 0) == ElementsAt(input, 1, []);
  }

  /** An object whose first member opens with '"': the member loop decides. */
  lemma ObjectFirst(input: string)
    requires 1 < |input| && input[0] == '{' && input[1] == '"'
    ensures Deserialized(input) == match MembersAt(input, 1, map[])
      case Err(e) => Err(e)
      case Ok(r) => Ok(r.value)
  {
    assert SkipSpace(input, 0) == 0 && SkipSpace(input, 1) == 1;
    assert ValueAt(input, 0) == ObjectAt(input, 0) == MembersAt(input, 1, map[]);
  }

  /** After the first element of an array, read up to e: white space to
      the end of the input, or a char other than ',' and ']'. */
  lemma ElementStop(input: string, v: Value, e: nat)
    requires 1 < |input| && input[0] == '[' && !IsSpace(input[1]) && input[1] != ']'
    requires ValueAt(input, 1) == Ok(Parsed(v, e))
    ensures var t := SkipSpace(input, e);
      (t == |input| ==> Deserialized(input) == Err(END_OF_INPUT)) &&
      (t < |input| && input[t] != ',' && input[t] != ']' ==> Deserialized(input) == Err(ARRAY_SEPARATOR))
  {
    var items: seq<Value> := [];
    assert items + [v] == [v];
    assert ElementsAt(input, 1, items) == AfterElement(input, e, [v]);
    ArrayFirst(input);
  }

  /** After the first member of an object, read up to e: white space to
      the end of the input, or a char other than ',' and '}'. */
  lemma MemberStop(input: string, key: string, v: Value, e: nat)
    requires 1 < |input| && input[0] == '{' && input[1] == '"'
    requires MemberAt(input, 1) == Ok((key, v, e))
    ensures var t := SkipSpace(input, e);
      (t == |input| ==> Deserialized(input) == Err(END_OF_INPUT)) &&
      (t < |input| && input[t] != ',' && input[t] != '}' ==> Deserialized(input) == Err(OBJECT_SEPARATOR))
  {
    assert MembersAt(input, 1, map[]) == AfterMember(input, e, map[key := v]);
    ObjectFirst(input);
  }

  /** After the first key of an object, read up to e: white space to the
      end of the input, or a char other than ':'. */
  lemma KeyStop(input: string, key: string, e: nat)
    requires 1 < |input| && input[0] == '{' && input[1] == '"'
    requires StringAt(input, 1) == Ok(Parsed(Str(key), e))
    ensures var t := SkipSpace(input, e);
      (t == |input| ==> Deserialized(input) == Err(END_OF_INPUT)) &&
      (t < |input| && input[t] != ':' ==> Deserialized(input) == Err("Expected ':' after key in object"))
  {
    assert SkipSpace(input, 1) == 1;
    ObjectFirst(input);
  }

  /** Where white space after a stops in a + rest, and the char there. */
  lemma StopAfter(a: string, rest: string)
    ensures SkipSpace(a + rest, |a|) == |a| + SkipSpace(rest, 0)
    ensures SkipSpace(rest, 0) < |rest| ==> (a + rest)[|a| + SkipSpace(rest, 0)] == rest[SkipSpace(rest, 0)]
  {
    SkipSpaceAfter(a, rest);
  }

  /** After the first element of an array: white space to the end of the
      input is a truncated document, and a char other than ',' and ']' is
      a missing separator. */
  lemma ArrayAfterFirst(v: Value, rest: string)
    requires NumberFree(v)
    ensures var s := SkipSpace(rest, 0);
      (s == |rest| ==> Deserialized("[" + Serialized(v) + rest) == Err(END_OF_INPUT)) &&
      (s < |rest| && rest[s] != ',' && rest[s] != ']' ==> Deserialized("[" + Serialized(v) + rest) == Err(ARRAY_SEPARATOR))
  {
    ElementThenRest(v, Serialized(v), rest, 1 + |Serialized(v)|);
  }

  lemma ElementThenRest(v: Value, t: string, rest: string, e: nat)
    requires NumberFree(v) && t == Serialized(v) && e == 1 + |t|
    ensures var s := SkipSpace(rest, 0);
      (s == |rest| ==> Deserialized("[" + t + rest) == Err(END_OF_INPUT)) &&
      (s < |rest| && rest[s] != ',' && rest[s] != ']' ==> Deserialized("[" + t + rest) == Err(ARRAY_SEPARATOR))
  {
    var input := "[" + t + rest;
    assert At(input, 1, t) by {
      assert input[1..e] == t;
    }
    ValueRead(input, 1, v);
    LeadAt(input, 1, v);
    StopAfter("[" + t, rest);
    ElementStop(input, v, e);
  }

  /** After the first member of an object: white space to the end of the
      input is a truncated document, and a char other than ',' and '}' is
      a missing separator. */
  lemma ObjectAfterFirst(key: string, v: Value, rest: string)
    requires NumberFree(v)
    ensures var s := SkipSpace(rest, 0);
      var input := "{" + Quoted(key) + ":" + Serialized(v) + rest;
      (s == |rest| ==> Deserialized(input) == Err(END_OF_INPUT)) &&
      (s < |rest| && rest[s] != ',' && rest[s] != '}' ==> Deserialized(input) == Err(OBJECT_SEPARATOR))
  {
    var m := Quoted(key) + ":" + Serialized(v);
    SeqAssoc("{", Quoted(key), ":");
    SeqAssoc("{", Quoted(key) + ":", Serialized(v));
    MemberThenRest(key, v, m, rest, 1 + |m|);
  }

  lemma MemberThenRest(key: string, v: Value, m: string, rest: string, e: nat)
    requires NumberFree(v) && m == Quoted(key) + ":" + Serialized(v) && e == 1 + |m|
    ensures var s := SkipSpace(rest, 0);
      (s == |rest| ==> Deserialized("{" + m + rest) == Err(END_OF_INPUT)) &&
      (s < |rest| && rest[s] != ',' && rest[s] != '}' ==> Deserialized("{" + m + rest) == Err(OBJECT_SEPARATOR))
  {
    var input := "{" + m + rest;
    assert At(input, 1, m) by {
      assert input[1..e] == m;
    }
    MemberRead(input, 1, key, v, e);
    assert m[0] == Quoted(key)[0] == '"';
    AtChar(input, 1, m, 0);
    StopAfter("{" + m, rest);
    MemberStop(input, key, v, e);
  }

  /** An object key followed by something other than ':' after white
      space, or by white space to the end of the input. */
  lemma KeyWithoutColon(key: string, rest: string)
    ensures var s := SkipSpace(rest, 0);
      (s == |rest| ==> Deserialized("{" + Quoted(key) + rest) == Err(END_OF_INPUT)) &&
      (s < |rest| && rest[s] != ':' ==> Deserialized("{" + Quoted(key) + rest) == Err("Expected ':' after key in object"))
  {
    var input := "{" + Quoted(key) + rest;
    var e := 1 + |Quoted(key)|;
    assert At(input, 1, Quoted(key)) by {
      assert input[1..e] == Quoted(key);
    }
    AtChar(input, 1, Quoted(key), 0);
    QuotedRead(input, 1, key);
    StopAfter("{" + Quoted(key), rest);
    KeyStop(input, key, e);
  }
}
