/** The request side of the development server (http/http_server.hpp):
    HttpRequest, parse_request and get_if_none_match.  The request text is
    read line by line as std::getline reads it; the socket that delivers
    it is not part of this model. */
module HttpRequest {
  import opened Wrappers
  import opened StdString
  import Chars
  import FileUtils

  datatype Request = Request(methodName: string, path: string, version: string, headers: map<string, string>, body: string)

  const NoRequest := Request("", "", "", map[], "")

  // ---------------------------------------------------------------------
  // The request line

  /** The chars operator>> skips as white space (isspace in the C locale). */
  const SPACES: set<char> := {' ', '\t', '\n', '\U{000B}', '\U{000C}', '\r'}

  /** operator>> into a string from lo: white space skipped, then the run
      of other chars; the word read and where reading stopped.  At the end
      of the line nothing is read and the target keeps "". */
  function Word(s: string, lo: nat): (r: (string, nat))
    requires lo <= |s|
    ensures lo <= r.1 <= |s|
    ensures forall k :: 0 <= k < |r.0| ==> r.0[k] !in SPACES
  {
    var i := SkipSpace(s, lo);
    var j := ScanUntil(s, i, SPACES);
    (s[i..j], j)
  }

  /** `request_line >> method >> path >> version`. */
  function RequestLine(line: string): (string, string, string) {
    var (m, i) := Word(line, 0);
    var (p, j) := Word(line, i);
    var (v, _) := Word(line, j);
    (m, p, v)
  }

  // ---------------------------------------------------------------------
  // Header lines

  /** The chars stripped from header keys and values. */
  const BLANKS: set<char> := {' ', '\t'}

  /** The line without the '\r' of a CRLF ending. */
  function Chomp(line: string): string {
    if line != [] && line[|line| - 1] == '\r' then line[..|line| - 1] else line
  }

  /** The line split at its first ':', key and value stripped of blanks and
      the key lower-cased; None for a line without ':'. */
  function Split(l: string): (r: Option<(string, string)>) {
    match FindChar(l, ':', 0)
    case None => None
    case Some(c) => Some((Chars.Lower(FileUtils.Strip(l[..c], BLANKS)), FileUtils.Strip(l[c + 1..], BLANKS)))
  }

  /** One header line.  An empty line, on which line.back() is undefined,
      has no ':' here. */
  function Header(line: string): Option<(string, string)> {
    Split(Chomp(line))
  }

  /** `request.headers[key] = value` for one line. */
  function WithHeader(headers: map<string, string>, line: string): map<string, string> {
    match Header(line)
    case None => headers
    case Some((key, value)) => headers[key := value]
  }

  /** The header map after the lines, in order. */
  function Headers(lines: seq<string>): map<string, string> {
    if lines == [] then map[] else WithHeader(Headers(lines[..|lines| - 1]), lines[|lines| - 1])
  }

  /** The body: each line followed by "\n". */
  function Body(lines: seq<string>): string {
    if lines == [] then "" else Body(lines[..|lines| - 1]) + lines[|lines| - 1] + "\n"
  }

  /** Index of the first "\r" line from i (the blank line ending the
      headers), or |lines|. */
  function HeaderEnd(lines: seq<string>, i: nat): (e: nat)
    requires i <= |lines|
    ensures i <= e <= |lines|
    ensures forall k :: i <= k < e ==> lines[k] != "\r"
    ensures e < |lines| ==> lines[e] == "\r"
    decreases |lines| - i
  {
    if i < |lines| && lines[i] != "\r" then HeaderEnd(lines, i + 1) else i
  }

  /** parse_request: the request line, the header lines up to the blank
      line, and the rest as the body. */
  function Parsed(raw: string): Request {
    var lines := FileUtils.Pieces(raw, '\n');
    if lines == [] then NoRequest
    else
      var (m, p, v) := RequestLine(lines[0]);
      var e := HeaderEnd(lines, 1);
      Request(m, p, v, Headers(lines[1..e]), if e < |lines| then Body(lines[e + 1..]) else "")
  }

  /** parse_request: the getline loops over the request text. */
  method ParseRequest(raw: string) returns (request: Request)
    ensures request == Parsed(raw)
  {
    var lines := FileUtils.Pieces(raw, '\n');
    if lines == [] {
      return NoRequest;
    }
    var (m, p, v) := RequestLine(lines[0]);
    var headers, e := ReadHeaders(lines);
    var body := "";
    if e < |lines| {
      body := ReadBody(lines[e + 1..]);
    }
    request := Request(m, p, v, headers, body);
  }

  /** The header loop: lines from the second up to the "\r" line. */
  method ReadHeaders(lines: seq<string>) returns (headers: map<string, string>, e: nat)
    requires lines != []
    ensures e == HeaderEnd(lines, 1) && headers == Headers(lines[1..e])
  {
    headers := map[];
    e := 1;
    while e < |lines| && lines[e] != "\r"
      invariant 1 <= e <= |lines|
      invariant HeaderEnd(lines, e) == HeaderEnd(lines, 1)
      invariant headers == Headers(lines[1..e])
    {
      HeadersStep(lines, e);
      headers := WithHeader(headers, lines[e]);
      e := e + 1;
    }
  }

  /** The body loop: every remaining line and a "\n". */
  method ReadBody(lines: seq<string>) returns (body: string)
    ensures body == Body(lines)
  {
    body := "";
    var j := 0;
    while j < |lines|
      invariant j <= |lines|
      invariant body == Body(lines[..j])
    {
      assert lines[..j + 1][..j] == lines[..j];
      body := body + lines[j] + "\n";
      j := j + 1;
    }
    assert lines[..j] == lines;
  }

  lemma HeadersStep(lines: seq<string>, e: nat)
    requires 1 <= e < |lines|
    ensures Headers(lines[1..e + 1]) == WithHeader(Headers(lines[1..e]), lines[e])
  {
    assert lines[1..e + 1] == lines[1..e] + [lines[e]];
    HeadersSnoc(lines[1..e], lines[e]);
  }

  lemma HeadersSnoc(lines: seq<string>, line: string)
    ensures Headers(lines + [line]) == WithHeader(Headers(lines), line)
  {
    assert (lines + [line])[..|lines|] == lines;
  }

  /** The body read back line by line gives the lines it was built from:
      each line is followed by exactly one "\n". */
  lemma {:induction false} BodyLines(lines: seq<string>)
    requires forall k :: 0 <= k < |lines| ==> '\n' !in lines[k]
    ensures FileUtils.Pieces(Body(lines), '\n') == lines
    decreases |lines|
  {
    if lines != [] {
      var init, last := lines[..|lines| - 1], lines[|lines| - 1];
      BodyLines(init);
      var b := Body(init);
      assert b + last + "\n" == b + (last + "\n");
      FileUtils.PiecesAppend(b, last + "\n", '\n');
      FileUtils.PiecesOfLine(last, '\n');
      assert init + [last] == lines;
    }
  }

  /** HttpRequest::get_if_none_match: the header's value, or "". */
  function IfNoneMatch(request: Request): (r: string)
    ensures "if-none-match" !in request.headers ==> r == ""
  {
    if "if-none-match" in request.headers then request.headers["if-none-match"] else ""
  }

  // ---------------------------------------------------------------------
  // What parse_request promises

  /** A later header line wins: the value of a key is the one on its last
      line. */
  lemma {:induction false} LaterHeaderWins(lines: seq<string>, j: nat, key: string, value: string)
    requires j < |lines| && Header(lines[j]) == Some((key, value))
    requires forall m :: j < m < |lines| ==> Header(lines[m]).None? || Header(lines[m]).value.0 != key
    ensures key in Headers(lines) && Headers(lines)[key] == value
    decreases |lines|
  {
    var init, last := lines[..|lines| - 1], lines[|lines| - 1];
    assert lines == init + [last];
    HeadersSnoc(init, last);
    if j < |lines| - 1 {
      assert init[j] == lines[j];
      LaterHeaderWins(init, j, key, value);
    }
  }

  /** Every key comes from some header line. */
  lemma {:induction false} HeaderKeys(lines: seq<string>, key: string)
    requires key in Headers(lines)
    ensures exists j :: 0 <= j < |lines| && Header(lines[j]).Some? && Header(lines[j]).value.0 == key
    decreases |lines|
  {
    var init, last := lines[..|lines| - 1], lines[|lines| - 1];
    assert lines == init + [last];
    HeadersSnoc(init, last);
    if !(Header(last).Some? && Header(last).value.0 == key) {
      assert key in Headers(init);
      HeaderKeys(init, key);
      var j :| 0 <= j < |init| && Header(init[j]).Some? && Header(init[j]).value.0 == key;
      assert lines[j] == init[j];
    }
  }

  /** Text whose ends are not blanks is not stripped. */
  lemma StripUnchanged(s: string)
    requires s == [] || (s[0] !in BLANKS && s[|s| - 1] !in BLANKS)
    ensures FileUtils.Strip(s, BLANKS) == s
  {
    if s != [] {
      assert FileUtils.FirstNotIn(s, BLANKS) == 0;
      assert FileUtils.EndNotIn(s, BLANKS) == |s|;
      assert s[0..|s|] == s;
    }
  }

  /** A leading blank is stripped. */
  lemma StripBlankFront(v: string)
    requires v == [] || (v[0] !in BLANKS && v[|v| - 1] !in BLANKS)
    ensures FileUtils.Strip(" " + v, BLANKS) == v
  {
    var s := " " + v;
    assert s[1..] == v;
    if v == [] {
      assert FileUtils.AllIn(s, BLANKS);
    } else {
      assert FileUtils.FirstNotIn(v, BLANKS) == 0;
      assert FileUtils.FirstNotIn(s, BLANKS) == 1;
      assert FileUtils.EndNotIn(s, BLANKS) == |s|;
    }
  }

  /** A header written "Name: value" with a CRLF ending reads back as the
      lower-cased name and the value. */
  lemma HeaderRoundTrip(name: string, value: string)
    requires ':' !in name
    requires name == [] || (name[0] !in BLANKS && name[|name| - 1] !in BLANKS)
    requires value == [] || (value[0] !in BLANKS && value[|value| - 1] !in BLANKS)
    ensures Header(name + ": " + value + "\r") == Some((Chars.Lower(name), value))
  {
    var l := name + ": " + value;
    assert (l + "\r")[..|l|] == l;
    assert name + ": " + value + "\r" == l + "\r";
    SplitRoundTrip(name, value);
  }

  /** "Name: value" splits into the lower-cased name and the value. */
  lemma SplitRoundTrip(name: string, value: string)
    requires ':' !in name
    requires name == [] || (name[0] !in BLANKS && name[|name| - 1] !in BLANKS)
    requires value == [] || (value[0] !in BLANKS && value[|value| - 1] !in BLANKS)
    ensures Split(name + ": " + value) == Some((Chars.Lower(name), value))
  {
    var h, t := name + ":", " " + value;
    Regroup(name, value);
    var l := h + t;
    FindCharFirst(l, ':', 0, |name|);
    TakeAppend(h, t, |name|);
    assert h[..|name|] == name;
    DropAppend(h, t, |h|);
    assert h[|h|..] == [];
    StripUnchanged(name);
    StripBlankFront(value);
  }

  lemma Regroup(name: string, value: string)
    ensures name + ": " + value == (name + ":") + (" " + value)
  {
  }

  /** get_if_none_match reads the last If-None-Match line, in any case. */
  lemma IfNoneMatchRead(request: Request, lines: seq<string>, name: string, value: string)
    requires request.headers == Headers(lines + [name + ": " + value + "\r"])
    requires Chars.Lower(name) == IF_NONE_MATCH
    requires value == [] || (value[0] !in BLANKS && value[|value| - 1] !in BLANKS)
    ensures IfNoneMatch(request) == value
  {
    IfNoneMatchChars();
    LowerKeeps(name, IF_NONE_MATCH);
    HeaderRoundTrip(name, value);
    HeadersSnoc(lines, name + ": " + value + "\r");
  }

  const IF_NONE_MATCH := "if-none-match"

  /** Lower-casing changes no ':' and no blank, so a name whose lower-case
      form has none at its ends has none either. */
  lemma LowerKeeps(name: string, target: string)
    requires Chars.Lower(name) == target
    requires ':' !in target && target != [] && target[0] !in BLANKS && target[|target| - 1] !in BLANKS
    ensures ':' !in name && name != [] && name[0] !in BLANKS && name[|name| - 1] !in BLANKS
  {
    forall k | 0 <= k < |name| ensures name[k] != ':' {
      assert target[k] == Chars.ToLower(name[k]);
    }
    assert target[0] == Chars.ToLower(name[0]);
    assert target[|name| - 1] == Chars.ToLower(name[|name| - 1]);
  }

  lemma IfNoneMatchChars()
    ensures ':' !in IF_NONE_MATCH && IF_NONE_MATCH != []
    ensures IF_NONE_MATCH[0] !in BLANKS && IF_NONE_MATCH[|IF_NONE_MATCH| - 1] !in BLANKS
  {
  }

  // ---------------------------------------------------------------------
  // The request line read back

  /** The chars of SPACES are those isspace accepts. */
  lemma SpacesAreSpace(c: char)
    ensures c in SPACES <==> Chars.IsSpace(c)
  {
  }

  /** operator>> reads a word that starts at lo and ends at a space or at
      the end of the text. */
  lemma WordRead(s: string, lo: nat, w: string)
    requires At(s, lo, w) && IsWord(w)
    requires lo + |w| < |s| ==> s[lo + |w|] in SPACES
    ensures Word(s, lo) == (w, lo + |w|)
  {
    AtChar(s, lo, w, 0);
    SpacesAreSpace(s[lo]);
    forall k | lo <= k < lo + |w| ensures s[k] !in SPACES {
      AtChar(s, lo, w, k - lo);
    }
    ScanUntilAt(s, lo, lo + |w|, SPACES);
  }

  /** A space before a word is skipped. */
  lemma SpaceSkipped(s: string, i: nat)
    requires i < |s| && s[i] == ' '
    ensures Word(s, i) == Word(s, i + 1)
  {
  }

  predicate IsWord(w: string) { w != [] && forall k :: 0 <= k < |w| ==> w[k] !in SPACES }

  /** "METHOD PATH VERSION" with a CRLF ending reads back as its three words. */
  lemma RequestLineRoundTrip(m: string, p: string, v: string)
    requires IsWord(m) && IsWord(p) && IsWord(v)
    ensures RequestLine(m + " " + p + " " + v + "\r") == (m, p, v)
  {
    var a := m + " ";
    var b := a + p;
    var c := b + " ";
    var d := c + v;
    var line := d + "\r";
    assert At(line, 0, line);
    AtSplit(line, 0, d, "\r");
    AtSplit(line, 0, c, v);
    AtSplit(line, 0, b, " ");
    AtSplit(line, 0, a, p);
    AtSplit(line, 0, m, " ");
    AtChar(line, |m|, " ", 0);
    AtChar(line, |b|, " ", 0);
    AtChar(line, |d|, "\r", 0);
    ThreeWords(line, m, p, v);
  }

  /** Three words, the first two each followed by one space, and the third
      by a space char or the end: operator>> reads them in turn. */
  lemma ThreeWords(s: string, m: string, p: string, v: string)
    requires IsWord(m) && IsWord(p) && IsWord(v)
    requires At(s, 0, m) && |m| < |s| && s[|m|] == ' '
    requires At(s, |m| + 1, p) && |m| + 1 + |p| < |s| && s[|m| + 1 + |p|] == ' '
    requires At(s, |m| + 1 + |p| + 1, v)
    requires |m| + 1 + |p| + 1 + |v| < |s| ==> s[|m| + 1 + |p| + 1 + |v|] in SPACES
    ensures RequestLine(s) == (m, p, v)
  {
    WordsFrom(s, 0, m, p, v);
  }

  /** The same three words starting at any position. */
  lemma WordsFrom(s: string, lo: nat, m: string, p: string, v: string)
    requires IsWord(m) && IsWord(p) && IsWord(v)
    requires At(s, lo, m) && lo + |m| < |s| && s[lo + |m|] == ' '
    requires At(s, lo + |m| + 1, p) && lo + |m| + 1 + |p| < |s| && s[lo + |m| + 1 + |p|] == ' '
    requires At(s, lo + |m| + 1 + |p| + 1, v)
    requires lo + |m| + 1 + |p| + 1 + |v| < |s| ==> s[lo + |m| + 1 + |p| + 1 + |v|] in SPACES
    ensures Word(s, lo) == (m, lo + |m|)
    ensures Word(s, lo + |m|) == (p, lo + |m| + 1 + |p|)
    ensures Word(s, lo + |m| + 1 + |p|).0 == v
  {
    WordRead(s, lo, m);
    WordAfterSpace(s, lo + |m|, p);
    WordAfterSpace(s, lo + |m| + 1 + |p|, v);
  }

  /** A word after one space is read whole. */
  lemma WordAfterSpace(s: string, i: nat, w: string)
    requires i < |s| && s[i] == ' ' && At(s, i + 1, w) && IsWord(w)
    requires i + 1 + |w| < |s| ==> s[i + 1 + |w|] in SPACES
    ensures Word(s, i) == (w, i + 1 + |w|)
  {
    SpaceSkipped(s, i);
    WordRead(s, i + 1, w);
  }

  /** parse_request reads the three words of the first line of a request. */
  lemma ParsedRequestLine(m: string, p: string, v: string, rest: string)
    requires IsWord(m) && IsWord(p) && IsWord(v)
    ensures var r := Parsed(m + " " + p + " " + v + "\r\n" + rest);
      r.methodName == m && r.path == p && r.version == v
  {
    var line := m + " " + p + " " + v + "\r";
    assert m + " " + p + " " + v + "\r\n" + rest == (line + "\n") + rest;
    assert '\n' !in line by {
      forall k | 0 <= k < |line| ensures line[k] != '\n' {
        if k < |m| { assert line[k] == m[k]; }
        else if |m| < k < |m| + 1 + |p| { assert line[k] == p[k - |m| - 1]; }
        else if |m| + 1 + |p| < k < |line| - 1 { assert line[k] == v[k - |m| - |p| - 2]; }
      }
    }
    FileUtils.PiecesAppend(line + "\n", rest, '\n');
    FileUtils.PiecesOfLine(line, '\n');
    RequestLineRoundTrip(m, p, v);
  }
}
