/** The response side of the development server (http/http_server.hpp):
    status codes and texts, the MIME table and get_content_type, and the
    text build_response and generate_error_response produce. */
module HttpResponse {
  import opened Wrappers
  import opened StdString
  import Chars
  import FileUtils
  import HttpRequest

  // ---------------------------------------------------------------------
  // Status

  /** HttpStatus, the enumerators the server uses. */
  datatype Status = OK | NotModified | BadRequest | NotFound | MethodNotAllowed | InternalServerError

  /** The enumerator's value, the numeric status code. */
  function Code(status: Status): (c: nat)
    ensures 200 <= c < 600
  {
    match status
    case OK => 200
    case NotModified => 304
    case BadRequest => 400
    case NotFound => 404
    case MethodNotAllowed => 405
    case InternalServerError => 500
  }

  /** get_status_text.  Every enumerator has its own case, so the "Unknown"
      default is never reached. */
  function StatusText(status: Status): (t: string)
    ensures t != [] && t != "Unknown" && '\n' !in t
  {
    match status
    case OK => "OK"
    case NotModified => "Not Modified"
    case BadRequest => "Bad Request"
    case NotFound => "Not Found"
    case MethodNotAllowed => "Method Not Allowed"
    case InternalServerError => "Internal Server Error"
  }

  /** No two statuses share a code, so the code names the status. */
  lemma CodeNamesStatus(a: Status, b: Status)
    ensures Code(a) == Code(b) <==> a == b
  {
  }

  /** The codes below 400 are exactly the two non-error statuses. */
  lemma ErrorCodes(status: Status)
    ensures Code(status) < 400 <==> status == OK || status == NotModified
  {
  }

  // ---------------------------------------------------------------------
  // Content types

  const OCTET_STREAM := "application/octet-stream"
  const HTML_TYPE := "text/html; charset=utf-8"

  /** The table init_mime_types fills, keyed by lower-case extension. */
  const MIME_TYPES: map<string, string> := map[
    ".html" := HTML_TYPE,
    ".htm" := HTML_TYPE,
    ".css" := "text/css; charset=utf-8",
    ".js" := "application/javascript; charset=utf-8",
    ".mjs" := "application/javascript; charset=utf-8",
    ".json" := "application/json; charset=utf-8",
    ".xml" := "application/xml; charset=utf-8",
    ".txt" := "text/plain; charset=utf-8",
    ".md" := "text/markdown; charset=utf-8",
    ".csv" := "text/csv; charset=utf-8",
    ".png" := "image/png",
    ".jpg" := "image/jpeg",
    ".jpeg" := "image/jpeg",
    ".gif" := "image/gif",
    ".svg" := "image/svg+xml",
    ".ico" := "image/x-icon",
    ".webp" := "image/webp",
    ".bmp" := "image/bmp",
    ".tiff" := "image/tiff",
    ".mp3" := "audio/mpeg",
    ".wav" := "audio/wav",
    ".ogg" := "audio/ogg",
    ".mp4" := "video/mp4",
    ".webm" := "video/webm",
    ".avi" := "video/x-msvideo",
    ".woff" := "font/woff",
    ".woff2" := "font/woff2",
    ".ttf" := "font/ttf",
    ".otf" := "font/otf",
    ".eot" := "application/vnd.ms-fontobject",
    ".pdf" := "application/pdf",
    ".zip" := "application/zip",
    ".tar" := "application/x-tar",
    ".gz" := "application/gzip",
    ".wasm" := "application/wasm"
  ]

  /** The index of the last c in s, if any. */
  function LastIndex(s: string, c: char): (r: Option<nat>)
    ensures r.None? <==> c !in s
    ensures r.Some? ==> r.value < |s| && s[r.value] == c && forall j :: r.value < j < |s| ==> s[j] != c
  {
    if s == [] then None
    else if s[|s| - 1] == c then Some(|s| - 1)
    else LastIndex(s[..|s| - 1], c)
  }

  /** std::filesystem::path::filename: what follows the last '/'. */
  function FileName(path: string): (name: string)
    ensures '/' !in name && |name| <= |path| && name == path[|path| - |name|..]
    ensures name == path || path[|path| - |name| - 1] == '/'
  {
    match LastIndex(path, '/')
    case None => path
    case Some(k) => path[k + 1..]
  }

  /** std::filesystem::path::extension: from the last '.' of the file name,
      except that "." and ".." have none and a leading '.' does not start
      one. */
  function Extension(path: string): (e: string)
    ensures e != [] ==> IsExtension(path, e)
  {
    var name := FileName(path);
    if IsDots(name) then ""
    else match LastIndex(name, '.')
      case None => ""
      case Some(k) =>
        if k == 0 then ""
        else
          ExtensionFrom(path, name, k);
          name[k..]
  }

  /** e is a tail of path's file name, shorter than it, that starts with
      its only '.'. */
  predicate IsExtension(path: string, e: string) {
    e != [] && e[0] == '.' && (forall j :: 1 <= j < |e| ==> e[j] != '.') && '/' !in e &&
    |e| < |FileName(path)| && e == path[|path| - |e|..]
  }

  /** What follows the last '.' of a file name, from that '.'. */
  lemma ExtensionFrom(path: string, name: string, k: nat)
    requires name == FileName(path)
    requires 0 < k < |name| && name[k] == '.' && forall j :: k < j < |name| ==> name[j] != '.'
    ensures IsExtension(path, name[k..])
  {
    var e := name[k..];
    forall j | 1 <= j < |e| ensures e[j] != '.' {
      assert e[j] == name[k + j];
    }
    assert e == path[|path| - |e|..];
  }

  /** "." or "..": one or two chars, all of them '.'. */
  predicate IsDots(name: string) {
    1 <= |name| <= 2 && forall k :: 0 <= k < |name| ==> name[k] == '.'
  }

  /** get_content_type: the table entry for the lower-cased extension, or
      application/octet-stream. */
  function ContentType(path: string): string {
    TypeOf(Chars.Lower(Extension(path)))
  }

  /** The type the table gives a lower-cased extension. */
  function TypeOf(ext: string): string {
    if ext in MIME_TYPES then MIME_TYPES[ext] else OCTET_STREAM
  }

  /** A path "stem.ext" whose stem ends in a file-name char has extension
      ".ext", and its content type is the table's, whatever the letter
      case of the extension. */
  lemma ContentTypeOf(stem: string, ext: string)
    requires stem != [] && stem[|stem| - 1] != '/'
    requires |ext| >= 2 && ext[0] == '.' && (forall j :: 1 <= j < |ext| ==> ext[j] != '.') && '/' !in ext
    ensures ContentType(stem + ext) == TypeOf(Chars.Lower(ext))
  {
    ExtensionOf(stem, ext);
  }

  /** The extension of "stem.ext" is ".ext". */
  lemma ExtensionOf(stem: string, ext: string)
    requires stem != [] && stem[|stem| - 1] != '/'
    requires |ext| >= 2 && ext[0] == '.' && (forall j :: 1 <= j < |ext| ==> ext[j] != '.') && '/' !in ext
    ensures Extension(stem + ext) == ext
  {
    FileNameAppend(stem, ext);
    var stemName := FileName(stem);
    var name := stemName + ext;
    assert stemName != [];
    forall j | |stemName| < j < |name| ensures name[j] != '.' {
      assert name[j] == ext[j - |stemName|];
    }
    LastIndexAt(name, '.', |stemName|);
    assert !IsDots(name) by {
      assert |name| >= 3;
    }
    assert name[|stemName|..] == ext;
  }

  /** Appending a '/'-free tail extends the file name. */
  lemma FileNameAppend(stem: string, tail: string)
    requires '/' !in tail
    ensures FileName(stem + tail) == FileName(stem) + tail
  {
    LastIndexAppend(stem, tail, '/');
    match LastIndex(stem, '/')
    case None =>
    case Some(k) =>
      DropAppend(stem, tail, k + 1);
  }

  /** A file name without '.' has no extension: the type is octet-stream. */
  lemma NoDotOctetStream(path: string)
    requires '.' !in FileName(path)
    ensures Extension(path) == [] && ContentType(path) == OCTET_STREAM
  {
    NoExtensionOctetStream();
  }

  /** The empty extension is not in the table. */
  lemma NoExtensionOctetStream()
    ensures TypeOf([]) == OCTET_STREAM
  {
    assert [] !in MIME_TYPES by {
      forall k | k in MIME_TYPES ensures k != [] {
      }
    }
  }

  /** A dot file such as ".profile" has no extension. */
  lemma DotFileOctetStream(dir: string, name: string)
    requires '/' !in name && '.' !in name
    ensures Extension(dir + "/." + name) == [] && ContentType(dir + "/." + name) == OCTET_STREAM
  {
    NoExtensionOctetStream();
    var path := dir + "/." + name;
    var tail := "." + name;
    assert path == (dir + "/") + tail;
    LastIndexAppend(dir + "/", tail, '/');
    assert LastIndex(dir + "/", '/') == Some(|dir|);
    assert path[|dir| + 1..] == tail;
    assert '.' !in tail[1..];
    LastIndexAt(tail, '.', 0);
  }

  /** The last c of a + b is in b when b has one, else it is a's. */
  lemma {:induction false} LastIndexAppend(a: string, b: string, c: char)
    requires c !in b
    ensures LastIndex(a + b, c) == LastIndex(a, c)
    decreases |b|
  {
    if b == [] {
      assert a + b == a;
    } else {
      var init := b[..|b| - 1];
      assert (a + b)[..|a + b| - 1] == a + init;
      LastIndexAppend(a, init, c);
    }
  }

  /** The last c is the one with none after it. */
  lemma LastIndexAt(s: string, c: char, k: nat)
    requires k < |s| && s[k] == c && forall j :: k < j < |s| ==> s[j] != c
    ensures LastIndex(s, c) == Some(k)
  {
    var r := LastIndex(s, c);
    assert r.Some?;
  }

  // ---------------------------------------------------------------------
  // build_response

  const CRLF := "\r\n"

  /** The head lines build_response writes, in order and without their
      CRLF. */
  function HeadLines(status: Status, contentType: string, body: string, etag: string): seq<string> {
    Fixed(status, contentType, body) + Caching(etag)
  }

  /** The status line and the four headers every response has. */
  function Fixed(status: Status, contentType: string, body: string): seq<string> {
    [StatusLine(status),
     "Content-Type: " + contentType,
     ContentLengthLine(|body|),
     "Server: ChiselHTTP/1.0",
     "Connection: close"]
  }

  /** "HTTP/1.1 <code> <text>". */
  function StatusLine(status: Status): string {
    "HTTP/1.1 " + NatToString(Code(status)) + " " + StatusText(status)
  }

  function ContentLengthLine(n: nat): string {
    "Content-Length: " + NatToString(n)
  }

  const CACHE_PUBLIC := "Cache-Control: public, max-age=3600"
  const NO_CACHE := "Cache-Control: no-cache"

  /** The caching headers: an ETag and an hour's caching, or no caching. */
  function Caching(etag: string): seq<string> {
    if etag != [] then ["ETag: " + etag, CACHE_PUBLIC] else [NO_CACHE]
  }

  /** Lines, each followed by CRLF. */
  function Block(lines: seq<string>): string {
    if lines == [] then "" else Block(lines[..|lines| - 1]) + lines[|lines| - 1] + CRLF
  }

  /** build_response: the head block, a blank line, then the body. */
  function Response(status: Status, contentType: string, body: string, etag: string): string {
    Block(HeadLines(status, contentType, body, etag)) + CRLF + body
  }

  /** The response ends with the body, untouched. */
  lemma ResponseEndsWithBody(status: Status, contentType: string, body: string, etag: string)
    ensures FileUtils.EndsWith(Response(status, contentType, body, etag), body)
  {
    var r := Response(status, contentType, body, etag);
    var head := Block(HeadLines(status, contentType, body, etag)) + CRLF;
    assert r == head + body;
    assert r[|r| - |body|..] == body;
  }

  /** Content-Length states the body's size, and its value reads back as
      that size. */
  lemma ContentLength(status: Status, contentType: string, body: string, etag: string)
    requires |body| <= INT_MAX
    ensures HeadLines(status, contentType, body, etag)[2] == ContentLengthLine(|body|)
    ensures Stoi(ContentLengthLine(|body|)[16..]) == Some(|body|)
  {
    ContentLengthValue(|body|);
  }

  lemma ContentLengthValue(n: nat)
    requires n <= INT_MAX
    ensures Stoi(ContentLengthLine(n)[16..]) == Some(n)
  {
    assert ContentLengthLine(n)[16..] == NatToString(n);
    StoiOfNatToString(n);
  }

  /** An ETag header exactly when the etag is non-empty; then the response
      may be cached for an hour, otherwise it must not be cached. */
  lemma ETagHeader(status: Status, contentType: string, body: string, etag: string)
    ensures var lines := HeadLines(status, contentType, body, etag);
      ("ETag: " + etag in lines <==> etag != []) &&
      (CACHE_PUBLIC in lines <==> etag != []) &&
      (NO_CACHE in lines <==> etag == [])
  {
    FixedInitials(status, contentType, body);
    CachingAfter(Fixed(status, contentType, body), etag);
  }

  /** None of the fixed lines starts like an ETag or a Cache-Control
      header. */
  lemma FixedInitials(status: Status, contentType: string, body: string)
    ensures Unlike(Fixed(status, contentType, body))
  {
  }

  predicate Unlike(lines: seq<string>) {
    forall k :: 0 <= k < |lines| ==> |lines[k]| >= 2 && lines[k][0] != 'E' && lines[k][1] != 'a'
  }

  /** The caching lines after lines that look like neither. */
  lemma CachingAfter(fixed: seq<string>, etag: string)
    requires Unlike(fixed)
    ensures var lines := fixed + Caching(etag);
      ("ETag: " + etag in lines <==> etag != []) &&
      (CACHE_PUBLIC in lines <==> etag != []) &&
      (NO_CACHE in lines <==> etag == [])
  {
    var tag := "ETag: " + etag;
    assert tag[0] == 'E';
    assert CACHE_PUBLIC[1] == 'a' && NO_CACHE[1] == 'a';
    assert tag !in fixed && CACHE_PUBLIC !in fixed && NO_CACHE !in fixed;
    assert CACHE_PUBLIC[15] != NO_CACHE[15];
    assert tag != NO_CACHE && tag != CACHE_PUBLIC;
  }

  // ---------------------------------------------------------------------
  // Framing: what a reader splitting the response at '\n' sees

  /** No line holds a '\n'. */
  predicate OneLineEach(lines: seq<string>) {
    forall k :: 0 <= k < |lines| ==> '\n' !in lines[k]
  }

  /** The CRLF-terminated block read back by getline: each line with its
      '\r' kept. */
  lemma {:induction false} BlockPieces(lines: seq<string>)
    requires OneLineEach(lines)
    ensures var ps := FileUtils.Pieces(Block(lines), '\n');
      |ps| == |lines| && forall k :: 0 <= k < |lines| ==> ps[k] == lines[k] + "\r"
    decreases |lines|
  {
    if lines != [] {
      var init, last := lines[..|lines| - 1], lines[|lines| - 1];
      BlockPieces(init);
      var b := Block(init);
      assert b + last + CRLF == b + ((last + "\r") + "\n");
      FileUtils.PiecesAppend(b, (last + "\r") + "\n", '\n');
      FileUtils.PiecesOfLine(last + "\r", '\n');
    }
  }

  /** The fixed head lines are single lines when the content type is. */
  lemma FixedOneLine(status: Status, contentType: string, body: string)
    requires '\n' !in contentType
    ensures OneLineEach(Fixed(status, contentType, body))
  {
    var f := Fixed(status, contentType, body);
    StatusLineOneLine(status);
    DigitsOneLine(|body|);
    assert '\n' !in f[1] && '\n' !in f[3] && '\n' !in f[4];
  }

  lemma StatusLineOneLine(status: Status)
    ensures '\n' !in StatusLine(status)
  {
    var code := NatToString(Code(status));
    assert '\n' !in code;
    assert '\n' !in StatusText(status);
  }

  lemma DigitsOneLine(n: nat)
    ensures '\n' !in ContentLengthLine(n)
  {
    assert '\n' !in NatToString(n);
  }

  /** A response whose content type and etag are single lines reads back,
      line by line, as its head lines each with its '\r', then the blank
      "\r" line where parse_request stops reading headers, then the body's
      lines. */
  lemma ResponseFraming(status: Status, contentType: string, body: string, etag: string)
    requires '\n' !in contentType && '\n' !in etag
    ensures var head := HeadLines(status, contentType, body, etag);
      var ps := FileUtils.Pieces(Response(status, contentType, body, etag), '\n');
      var n := |head|;
      |ps| > n && (forall k :: 0 <= k < n ==> ps[k] == head[k] + "\r") && ps[n] == "\r" &&
      ps[n + 1..] == FileUtils.Pieces(body, '\n') && HttpRequest.HeaderEnd(ps, 1) == n
  {
    HeadOneLine(status, contentType, body, etag);
    BlockThenBody(HeadLines(status, contentType, body, etag), body);
  }

  /** Every head line is a non-empty single line. */
  lemma HeadOneLine(status: Status, contentType: string, body: string, etag: string)
    requires '\n' !in contentType && '\n' !in etag
    ensures var head := HeadLines(status, contentType, body, etag);
      head != [] && OneLineEach(head) && forall k :: 0 <= k < |head| ==> head[k] != []
  {
    FixedOneLine(status, contentType, body);
    FixedInitials(status, contentType, body);
    CachingOneLine(etag);
    JoinedLines(Fixed(status, contentType, body), Caching(etag));
  }

  lemma CachingOneLine(etag: string)
    requires '\n' !in etag
    ensures OneLineEach(Caching(etag)) && forall k :: 0 <= k < |Caching(etag)| ==> Caching(etag)[k] != []
  {
    assert '\n' !in "ETag: " + etag;
  }

  /** Non-empty single lines, joined. */
  lemma JoinedLines(a: seq<string>, b: seq<string>)
    requires OneLineEach(a) && forall k :: 0 <= k < |a| ==> a[k] != []
    requires OneLineEach(b) && forall k :: 0 <= k < |b| ==> b[k] != []
    ensures OneLineEach(a + b) && forall k :: 0 <= k < |a + b| ==> (a + b)[k] != []
  {
  }

  /** Non-empty single lines as a CRLF block, a blank line and a body. */
  lemma BlockThenBody(head: seq<string>, body: string)
    requires head != [] && OneLineEach(head) && forall k :: 0 <= k < |head| ==> head[k] != []
    ensures var ps := FileUtils.Pieces(Block(head) + CRLF + body, '\n');
      var n := |head|;
      |ps| > n && (forall k :: 0 <= k < n ==> ps[k] == head[k] + "\r") && ps[n] == "\r" &&
      ps[n + 1..] == FileUtils.Pieces(body, '\n') && HttpRequest.HeaderEnd(ps, 1) == n
  {
    BlockPieces(head);
    var b := Block(head);
    PiecesAfterBlock(b, body);
    var ps := FileUtils.Pieces(b + CRLF + body, '\n');
    assert forall k :: 0 <= k < |head| ==> ps[k] == head[k] + "\r";
    assert ps[|head| + 1..] == FileUtils.Pieces(body, '\n');
    HeaderEndAt(ps, 1, |head|);
  }

  /** A blank CRLF line after complete lines is one "\r" piece. */
  lemma PiecesAfterBlock(b: string, body: string)
    requires b != [] && b[|b| - 1] == '\n'
    ensures FileUtils.Pieces(b + CRLF + body, '\n') == FileUtils.Pieces(b, '\n') + ["\r"] + FileUtils.Pieces(body, '\n')
  {
    CrlfPieces(body);
    FileUtils.PiecesAppend(b, CRLF + body, '\n');
    assert b + CRLF + body == b + (CRLF + body);
  }

  /** A CRLF in front of text adds one "\r" piece. */
  lemma CrlfPieces(body: string)
    ensures FileUtils.Pieces(CRLF + body, '\n') == ["\r"] + FileUtils.Pieces(body, '\n')
  {
    assert CRLF == "\r" + ['\n'];
    FileUtils.PiecesAppend(CRLF, body, '\n');
    FileUtils.PiecesOfLine("\r", '\n');
  }

  /** The header end found from i is the first "\r" line. */
  lemma {:induction false} HeaderEndAt(lines: seq<string>, i: nat, n: nat)
    requires i <= n < |lines| && lines[n] == "\r"
    requires forall k :: i <= k < n ==> lines[k] != "\r"
    ensures HttpRequest.HeaderEnd(lines, i) == n
    decreases n - i
  {
    if i < n {
      HeaderEndAt(lines, i + 1, n);
    }
  }

  // ---------------------------------------------------------------------
  // generate_error_response

  /** The paragraph shown when no message is given. */
  function DefaultMessage(status: Status): string {
    match status
    case NotFound => "The requested resource was not found on this server."
    case MethodNotAllowed => "The requested method is not allowed for this resource."
    case BadRequest => "The request could not be understood by the server."
    case _ => "An error occurred while processing your request."
  }

  /** "<code> <text>", the page's title and heading. */
  function Heading(status: Status): string {
    NatToString(Code(status)) + " " + StatusText(status)
  }

  const STYLE := "<style>body{font-family:Arial,sans-serif;margin:40px;}h1{color:#d32f2f;}p{color:#666;}</style>"

  /** The message shown: the given one, or the status's default. */
  function Shown(status: Status, message: string): string {
    if message != [] then message else DefaultMessage(status)
  }

  /** The HTML error page. */
  function ErrorPage(status: Status, message: string): string {
    PageFront(status) + PageEnd(status, Shown(status, message))
  }

  function PageFront(status: Status): string {
    "<!DOCTYPE html>\n<html><head><title>" + Heading(status) + "</title>" + STYLE + "</head><body>"
  }

  /** The heading and the message paragraph that close the page. */
  function PageEnd(status: Status, shown: string): string {
    "<h1>" + Heading(status) + "</h1><p>" + shown + "</p></body></html>"
  }

  /** generate_error_response: the page as an uncacheable HTML response. */
  function ErrorResponse(status: Status, message: string): string {
    Response(status, HTML_TYPE, ErrorPage(status, message), "")
  }

  /** The page ends with the heading and the message, or the status's
      default message when none is given. */
  lemma ErrorPageEnd(status: Status, message: string)
    ensures FileUtils.EndsWith(ErrorPage(status, message), PageEnd(status, Shown(status, message)))
    ensures message != [] ==> Shown(status, message) == message
  {
    EndsWithTail(PageFront(status), PageEnd(status, Shown(status, message)));
  }

  lemma EndsWithTail(front: string, tail: string)
    ensures FileUtils.EndsWith(front + tail, tail)
  {
    var s := front + tail;
    assert s[|s| - |tail|..] == tail;
  }

  /** An error response is HTML, carries no ETag and must not be cached. */
  lemma ErrorResponseHead(status: Status, message: string)
    ensures var lines := HeadLines(status, HTML_TYPE, ErrorPage(status, message), "");
      lines[1] == "Content-Type: " + HTML_TYPE && NO_CACHE in lines && CACHE_PUBLIC !in lines
  {
    ETagHeader(status, HTML_TYPE, ErrorPage(status, message), "");
  }
}
