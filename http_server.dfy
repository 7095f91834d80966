/** The development server's request handling (http/http_server.hpp):
    resolve_path, the file cache with its size bookkeeping, cleanup and
    eviction, and the status decisions of handle_request.  The filesystem
    is a map from full paths to what the server asks of each file, the
    clock is passed in as integer readings in milliseconds, and
    generate_etag is a function parameter. */
module HttpServer {
  import opened Wrappers
  import opened StdString
  import Chars
  import HttpRequest
  import opened HttpResponse

  // ---------------------------------------------------------------------
  // resolve_path: percent-decoding

  /** s before the decoded rest, unless decoding the rest failed. */
  function Prepend(s: string, rest: Option<string>): (r: Option<string>)
    ensures r.Some? <==> rest.Some?
  {
    if rest.None? then None else Some(s + rest.value)
  }

  /** The decoding loop of resolve_path: a '%' with at least two chars
      after it stands for the char std::stoul reads from those two in base
      16, truncated to a char; None when std::stoul throws. */
  function Decoded(p: string): (r: Option<string>)
    ensures r.Some? ==> |r.value| <= |p| && (p != [] ==> r.value != [])
  {
    if p == [] then Some([])
    else if p[0] == '%' && 2 < |p| then
      match Stoul(p[1..3], 16)
      case None => None
      case Some(v) => Prepend([(v % 256) as char], Decoded(p[3..]))
    else Prepend([p[0]], Decoded(p[1..]))
  }

  /** The index loop building decoded_path. */
  method DecodePath(p: string) returns (r: Option<string>)
    ensures r == Decoded(p)
  {
    var decoded := "";
    var i := 0;
    assert p[0..] == p;
    PrependEmpty(Decoded(p));
    while i < |p|
      invariant i <= |p|
      invariant Decoded(p) == Prepend(decoded, Decoded(p[i..]))
    {
      if p[i] == '%' && i + 2 < |p| {
        assert p[i..][1..3] == p[i + 1..i + 3] && p[i..][3..] == p[i + 3..];
        var v := Stoul(p[i + 1..i + 3], 16);
        if v.None? {
          return None;
        }
        PrependAssoc(decoded, [(v.value % 256) as char], Decoded(p[i + 3..]));
        decoded := decoded + [(v.value % 256) as char];
        i := i + 3;
      } else {
        assert p[i..][1..] == p[i + 1..];
        PrependAssoc(decoded, [p[i]], Decoded(p[i + 1..]));
        decoded := decoded + [p[i]];
        i := i + 1;
      }
    }
    assert p[i..] == [];
    assert decoded + [] == decoded;
    return Some(decoded);
  }

  lemma PrependEmpty(o: Option<string>)
    ensures Prepend([], o) == o
  {
    if o.Some? {
      assert [] + o.value == o.value;
    }
  }

  lemma PrependAssoc(a: string, b: string, o: Option<string>)
    ensures Prepend(a, Prepend(b, o)) == Prepend(a + b, o)
  {
    if o.Some? {
      assert a + (b + o.value) == (a + b) + o.value;
    }
  }

  /** Two hex digits, as std::stoul reads them in base 16. */
  lemma HexPair(a: char, b: char)
    requires Chars.IsHexDigit(a) && Chars.IsHexDigit(b)
    ensures Stoul([a, b], 16) == Some(16 * Chars.HexValue(a) + Chars.HexValue(b))
  {
    var s := [a, b];
    assert SkipSpace(s, 0) == 0;
    assert DigitRun(s, 0, 16) == 2;
    assert RunValue(s, 0, 2, 16) == RunValue(s, 0, 1, 16) * 16 + Chars.HexValue(b);
  }

  /** The lower-case hex digit of d. */
  function HexChar(d: nat): (c: char)
    requires d < 16
    ensures Chars.IsHexDigit(c) && Chars.HexValue(c) == d
  {
    if d < 10 then ('0' as int + d) as char else ('a' as int + d - 10) as char
  }

  /** Every char of s written as %XX. */
  function Encode(s: string): string
    requires forall k :: 0 <= k < |s| ==> s[k] as int < 256
  {
    if s == [] then []
    else ['%', HexChar(s[0] as int / 16), HexChar(s[0] as int % 16)] + Encode(s[1..])
  }

  /** Decoding undoes percent-encoding. */
  lemma {:induction false} DecodeEncode(s: string)
    requires forall k :: 0 <= k < |s| ==> s[k] as int < 256
    ensures Decoded(Encode(s)) == Some(s)
    decreases |s|
  {
    if s != [] {
      var c := s[0] as int;
      var a, b := HexChar(c / 16), HexChar(c % 16);
      assert Encode(s) == ['%', a, b] + Encode(s[1..]);
      DecodeTriple(a, b, Encode(s[1..]));
      var v := 16 * Chars.HexValue(a) + Chars.HexValue(b);
      assert c < 256;
      DivMod16(c);
      SmallMod(v, 256);
      assert (v % 256) as char == s[0];
      DecodeEncode(s[1..]);
      assert [s[0]] + s[1..] == s;
    }
  }

  lemma DivMod16(c: nat)
    ensures 16 * (c / 16) + c % 16 == c
  {
  }

  lemma SmallMod(v: nat, m: nat)
    requires v < m
    ensures v % m == v
  {
  }

  /** '%' and two hex digits decode to the char they spell. */
  lemma DecodeTriple(a: char, b: char, rest: string)
    requires Chars.IsHexDigit(a) && Chars.IsHexDigit(b)
    ensures Decoded(['%', a, b] + rest) ==
      Prepend([((16 * Chars.HexValue(a) + Chars.HexValue(b)) % 256) as char], Decoded(rest))
  {
    var p := ['%', a, b] + rest;
    HexPair(a, b);
    assert p[1..3] == [a, b];
    assert p[3..] == rest;
  }

  /** Text without '%' decodes to itself. */
  lemma {:induction false} DecodePlain(p: string)
    requires '%' !in p
    ensures Decoded(p) == Some(p)
    decreases |p|
  {
    if p != [] {
      DecodePlain(p[1..]);
      assert [p[0]] + p[1..] == p;
    }
  }

  /** Plain text in front of encoded text is kept as it is. */
  lemma {:induction false} DecodePlainPrefix(pre: string, rest: string)
    requires '%' !in pre
    ensures Decoded(pre + rest) == Prepend(pre, Decoded(rest))
    decreases |pre|
  {
    if pre != [] {
      assert (pre + rest)[0] == pre[0] && (pre + rest)[1..] == pre[1..] + rest;
      DecodePlainPrefix(pre[1..], rest);
      PrependAssoc([pre[0]], pre[1..], Decoded(rest));
      assert [pre[0]] + pre[1..] == pre;
    } else {
      assert pre + rest == rest;
      PrependEmpty(Decoded(rest));
    }
  }

  // ---------------------------------------------------------------------
  // resolve_path: the rest

  /** What the server knows of a file: whether it is a directory, its size
      (None when std::filesystem::file_size fails), its last write time,
      and its contents (None when it cannot be opened). */
  datatype FileInfo = FileInfo(isDirectory: bool, size: Option<nat>, lastWrite: int, content: Option<string>)

  /** The filesystem: full paths of the files that exist. */
  type Files = map<string, FileInfo>

  const INDEX := "/index.html"

  /** No ".." anywhere in s. */
  predicate NoDotDot(s: string) {
    forall i :: 0 <= i < |s| - 1 ==> !(s[i] == '.' && s[i + 1] == '.')
  }

  /** find("..") == npos exactly when there is no "..". */
  lemma DotDotFound(s: string)
    ensures Contains(s, "..") <==> !NoDotDot(s)
  {
    FindLeast(s, "..", 0);
    if Contains(s, "..") {
      var i := Find(s, "..", 0).value;
      assert OccursAt(s, "..", i);
      assert s[i + 0] == ".."[0] && s[i + 1] == ".."[1];
    } else if !NoDotDot(s) {
      var i :| 0 <= i < |s| - 1 && s[i] == '.' && s[i + 1] == '.';
      assert OccursAt(s, "..", i);
    }
  }

  /** resolve_path given the decoded path; the filesystem answers
      std::filesystem::exists.  back() on an empty path is read as not
      '/'. */
  function ResolveDecoded(d: string, fs: Files, root: string): string {
    if Contains(d, "..") then INDEX
    else if '.' !in d && (d == [] || d[|d| - 1] != '/') then
      if root + d + INDEX in fs then d + INDEX
      else if root + d + ".html" in fs then d + ".html"
      else d
    else d
  }

  /** resolve_path: None when std::stoul throws while decoding. */
  function Resolve(path: string, fs: Files, root: string): Option<string> {
    var p := if path == "/" then INDEX else path;
    match Decoded(p)
    case None => None
    case Some(d) => Some(ResolveDecoded(d, fs, root))
  }

  /** A resolved path never holds "..": the request cannot climb out of the
      served directory. */
  lemma ResolveNoDotDot(path: string, fs: Files, root: string)
    requires Resolve(path, fs, root).Some?
    ensures NoDotDot(Resolve(path, fs, root).value)
  {
    var p := if path == "/" then INDEX else path;
    var d := Decoded(p).value;
    DotDotFound(d);
    IndexNoDotDot();
    if !Contains(d, "..") && '.' !in d && (d == [] || d[|d| - 1] != '/') {
      NoDotDotAppend(d, INDEX);
      HtmlNoDotDot();
      NoDotDotAppend(d, ".html");
    }
  }

  lemma IndexNoDotDot()
    ensures NoDotDot(INDEX) && INDEX[0] == '/'
  {
  }

  lemma HtmlNoDotDot()
    ensures NoDotDot(".html")
  {
  }

  /** A '.'-free text before a text without ".." makes none. */
  lemma NoDotDotAppend(a: string, b: string)
    requires '.' !in a && NoDotDot(b)
    ensures NoDotDot(a + b)
  {
    var s := a + b;
    forall i | 0 <= i < |s| - 1 ensures !(s[i] == '.' && s[i + 1] == '.') {
      if i < |a| {
        assert s[i] == a[i];
      } else {
        assert s[i] == b[i - |a|] && s[i + 1] == b[i + 1 - |a|];
      }
    }
  }

  /** "/" is served as "/index.html". */
  lemma ResolveRoot(fs: Files, root: string)
    ensures Resolve("/", fs, root) == Some(INDEX)
  {
    IndexPlain();
    DecodePlain(INDEX);
    DotDotFound(INDEX);
    IndexNoDotDot();
  }

  lemma IndexPlain()
    ensures '%' !in INDEX && '.' in INDEX
  {
    assert INDEX[6] == '.';
  }

  /** ".." written as "%2e%2e" is still caught once decoded: the request
      gets "/index.html". */
  lemma ResolveEncodedDotDot(pre: string, rest: string, fs: Files, root: string)
    requires '%' !in pre && pre != "/" && Decoded(rest).Some?
    ensures Resolve(pre + "%2e%2e" + rest, fs, root) == Some(INDEX)
  {
    var path := pre + "%2e%2e" + rest;
    assert path != "/" by {
      assert |path| >= 6;
    }
    DotDotDecoded(pre, rest);
    var d := (pre + "..") + Decoded(rest).value;
    assert d[|pre|] == '.' && d[|pre| + 1] == '.';
    DotDotFound(d);
  }

  /** "%2e%2e" after plain text decodes to "..". */
  lemma DotDotDecoded(pre: string, rest: string)
    requires '%' !in pre
    ensures Decoded(pre + "%2e%2e" + rest) == Prepend(pre + "..", Decoded(rest))
  {
    var t := "%2e%2e" + rest;
    assert pre + "%2e%2e" + rest == pre + t;
    DecodePlainPrefix(pre, t);
    EncodedDotDot(rest);
    PrependAssoc(pre, "..", Decoded(rest));
  }

  lemma EncodedDotDot(rest: string)
    ensures Decoded("%2e%2e" + rest) == Prepend("..", Decoded(rest))
  {
    EncodedDot("%2e" + rest);
    EncodedDot(rest);
    assert "%2e%2e" + rest == "%2e" + ("%2e" + rest);
    PrependAssoc(".", ".", Decoded(rest));
    assert "." + "." == "..";
  }

  /** "%2e" decodes to '.'. */
  lemma EncodedDot(rest: string)
    ensures Decoded("%2e" + rest) == Prepend(".", Decoded(rest))
  {
    DecodeTriple('2', 'e', rest);
    assert "%2e" + rest == ['%', '2', 'e'] + rest;
  }

  /** An extension-less path not ending in '/' is served as its
      "/index.html" when that exists, else as its ".html" file when that
      exists, else unchanged. */
  lemma ResolveExtensionless(path: string, fs: Files, root: string)
    requires path != "/" && path != [] && path[|path| - 1] != '/'
    requires '%' !in path && '.' !in path
    ensures Resolve(path, fs, root) ==
      if root + path + INDEX in fs then Some(path + INDEX)
      else if root + path + ".html" in fs then Some(path + ".html")
      else Some(path)
  {
    DecodePlain(path);
    DotDotFound(path);
  }

  // ---------------------------------------------------------------------
  // The cache

  /** CacheEntry; times are clock readings. */
  datatype Entry = Entry(content: string, contentType: string, etag: string, lastModified: int, cachedAt: int, fileSize: nat)

  /** cache_max_size_: 50 MiB. */
  const CACHE_MAX: nat := 50 * 1024 * 1024

  /** cache_ttl_: 30 minutes, in milliseconds. */
  const CACHE_TTL: int := 30 * 60 * 1000

  /** is_cache_valid at clock reading now. */
  predicate Fresh(e: Entry, now: int) {
    now - e.cachedAt < CACHE_TTL
  }

  /** The entries still fresh at now. */
  function Live(m: map<string, Entry>, now: int): map<string, Entry> {
    map k | k in m && Fresh(m[k], now) :: m[k]
  }

  /** The sum of the cached content sizes. */
  ghost function Total(m: map<string, Entry>): nat
    decreases |m|
  {
    if m == map[] then 0
    else
      var k :| k in m;
      assert |m - {k}| < |m| by { MapRemoveSize(m, k); }
      |m[k].content| + Total(m - {k})
  }

  lemma MapRemoveSize(m: map<string, Entry>, k: string)
    requires k in m
    ensures |m - {k}| == |m| - 1
  {
    assert (m - {k}).Keys == m.Keys - {k};
    assert |m.Keys - {k}| == |m.Keys| - 1;
  }

  /** Any entry can be taken out of the sum first. */
  lemma {:induction false} TotalRemove(m: map<string, Entry>, k: string)
    requires k in m
    ensures Total(m) == |m[k].content| + Total(m - {k})
    decreases |m|
  {
    var j :| j in m && Total(m) == |m[j].content| + Total(m - {j});
    if j != k {
      MapRemoveSize(m, j);
      MapRemoveSize(m, k);
      TotalRemove(m - {j}, k);
      TotalRemove(m - {k}, j);
      assert m - {j} - {k} == m - {k} - {j};
    }
  }

  /** A map inside another sums to no more. */
  lemma {:induction false} TotalSub(a: map<string, Entry>, b: map<string, Entry>)
    requires forall k :: k in a ==> k in b && a[k] == b[k]
    ensures Total(a) <= Total(b)
    decreases |b|
  {
    if b != map[] {
      var k :| k in b;
      MapRemoveSize(b, k);
      TotalRemove(b, k);
      if k in a {
        TotalRemove(a, k);
        TotalSub(a - {k}, b - {k});
      } else {
        TotalSub(a, b - {k});
      }
    }
  }

  /** The store step of handle_request as written: the new content's size
      is added without taking out the size of an entry already under the
      key. */
  function StoreAsWritten(cache: map<string, Entry>, size: nat, key: string, entry: Entry): (r: (map<string, Entry>, nat))
    ensures r.0 == cache[key := entry] && r.1 == size + |entry.content|
  {
    (cache[key := entry], size + |entry.content|)
  }

  /** An entry that survives cleanup_cache but fails is_cache_valid at the
      later lookup stays cached; storing the re-read file over it counts
      both contents, and current_cache_size_ no longer matches the cache. */
  lemma StoreAsWrittenDrifts()
    ensures var old0 := Entry("abc", "text/plain", "", 0, 0, 3);
            var new0 := Entry("xy", "text/plain", "", 1, CACHE_TTL, 2);
            var m := map["/a" := old0];
            Total(m) == 3 && Live(m, CACHE_TTL - 1) == m && !Fresh(old0, CACHE_TTL) &&
            StoreAsWritten(m, 3, "/a", new0).1 == 5 &&
            Total(StoreAsWritten(m, 3, "/a", new0).0) == 2
  {
    var old0 := Entry("abc", "text/plain", "", 0, 0, 3);
    var new0 := Entry("xy", "text/plain", "", 1, CACHE_TTL, 2);
    var m := map["/a" := old0];
    TotalSingle("/a", old0);
    assert m["/a" := new0] == map["/a" := new0];
    TotalSingle("/a", new0);
  }

  lemma TotalSingle(k: string, e: Entry)
    ensures Total(map[k := e]) == |e.content|
  {
    var m := map[k := e];
    TotalRemove(m, k);
    assert m - {k} == map[];
  }

  const GET := "GET"

  /** Where handle_request's decisions before the cache lead: an answer
      given outright, or the file to serve with its etag. */
  datatype Target = Reply(response: string) | File(resolved: string, info: FileInfo, etag: string)

  /** The checks of handle_request in order: the method, resolve_path (its
      exception reaches the event loop's 500), existence, file_size, and
      If-None-Match.  generate_etag is etagOf. */
  function Route(request: HttpRequest.Request, fs: Files, root: string, etagOf: (string, nat, int) -> string): (t: Target)
    ensures request.methodName != GET ==> t == Reply(ErrorResponse(MethodNotAllowed, ""))
    ensures request.methodName == GET && Resolve(request.path, fs, root).None? ==>
      t == Reply(ErrorResponse(InternalServerError, ""))
    ensures request.methodName == GET && Resolve(request.path, fs, root).Some? ==>
      var filePath := root + Resolve(request.path, fs, root).value;
      (filePath !in fs || fs[filePath].isDirectory ==> t == Reply(ErrorResponse(NotFound, ""))) &&
      (filePath in fs && !fs[filePath].isDirectory && fs[filePath].size.None? ==>
         t == Reply(ErrorResponse(InternalServerError, ""))) &&
      (filePath in fs && !fs[filePath].isDirectory && fs[filePath].size.Some? &&
       HttpRequest.IfNoneMatch(request) != "" &&
       HttpRequest.IfNoneMatch(request) == etagOf(filePath, fs[filePath].size.value, fs[filePath].lastWrite) ==>
         t == Reply(Response(NotModified, "", "", "")))
    ensures t.File? ==>
      request.methodName == GET && NoDotDot(t.resolved) &&
      root + t.resolved in fs && t.info == fs[root + t.resolved] &&
      !t.info.isDirectory && t.info.size.Some? &&
      t.etag == etagOf(root + t.resolved, t.info.size.value, t.info.lastWrite) &&
      (HttpRequest.IfNoneMatch(request) == "" || HttpRequest.IfNoneMatch(request) != t.etag)
  {
    if request.methodName != GET then Reply(ErrorResponse(MethodNotAllowed, ""))
    else match Resolve(request.path, fs, root)
      case None => Reply(ErrorResponse(InternalServerError, ""))
      case Some(r) =>
        ResolveNoDotDot(request.path, fs, root);
        var filePath := root + r;
        if filePath !in fs || fs[filePath].isDirectory then Reply(ErrorResponse(NotFound, ""))
        else if fs[filePath].size.None? then Reply(ErrorResponse(InternalServerError, ""))
        else
          var etag := etagOf(filePath, fs[filePath].size.value, fs[filePath].lastWrite);
          var client := HttpRequest.IfNoneMatch(request);
          if client != "" && client == etag then Reply(Response(NotModified, "", "", ""))
          else File(r, fs[filePath], etag)
  }

  /** The cache handle_request serves from after cleanup_cache: an entry
      still fresh at the lookup but older than the file is taken out. */
  function Base(cache: map<string, Entry>, path: string, info: FileInfo, now: int): (r: map<string, Entry>)
    ensures forall k :: k in r ==> k in cache && r[k] == cache[k]
    ensures forall k :: k in cache && k != path ==> k in r
  {
    if path in cache && Fresh(cache[path], now) && info.lastWrite > cache[path].lastModified then cache - {path} else cache
  }

  /** The entries of base still under their key in after, with base's
      content: what eviction kept, plus base's own entry under a key that
      was stored again. */
  function Kept(base: map<string, Entry>, after: map<string, Entry>): (r: map<string, Entry>)
    ensures forall k :: k in r <==> k in base && k in after
    ensures forall k :: k in r ==> r[k] == base[k]
  {
    map k | k in base && k in after :: base[k]
  }

  /** The cache after new content is stored under key: the new entry under
      key; every other entry one of base's, each evicted one no newer than
      any kept one; no eviction when the content fits beside base; and,
      when anything was evicted, eviction stopped as soon as the content
      fit: some evicted entry still did not leave room for it beside the
      kept ones. */
  ghost predicate Stored(base: map<string, Entry>, after: map<string, Entry>, key: string, entry: Entry) {
    key in after && after[key] == entry &&
    (forall k :: k in after && k != key ==> k in base && after[k] == base[k]) &&
    (forall e, k :: e in base && e !in after && k in after && k != key ==> base[e].cachedAt <= after[k].cachedAt) &&
    (Total(base) + |entry.content| <= CACHE_MAX ==> after == base[key := entry]) &&
    StoppedAtFit(base, after, |entry.content|)
  }

  /** When anything of base is missing from after, some missing entry still
      did not leave room for size bytes beside the kept ones: eviction
      stopped as soon as the content fit. */
  ghost predicate StoppedAtFit(base: map<string, Entry>, after: map<string, Entry>, size: nat) {
    (exists e :: e in base && e !in after) ==>
      exists e :: e in base && e !in after && Total(Kept(base, after)) + |base[e].content| + size > CACHE_MAX
  }

  /** When evicted is not all of base, some entry missing from it did not
      leave room for size bytes beside evicted: the last one taken out. */
  ghost predicate LastDidNotFit(base: map<string, Entry>, evicted: map<string, Entry>, size: nat) {
    evicted != base ==>
      exists e :: e in base && e !in evicted && Total(evicted) + |base[e].content| + size > CACHE_MAX
  }

  /** Evicting oldest-first from base until the content fits, and then
      storing entry under key, gives a cache Stored describes. */
  lemma StoredAfterEviction(base: map<string, Entry>, evicted: map<string, Entry>, key: string, entry: Entry)
    requires forall k :: k in evicted ==> k in base && evicted[k] == base[k]
    requires Total(base) + |entry.content| <= CACHE_MAX ==> evicted == base
    requires forall e, k :: e in base && e !in evicted && k in evicted ==> base[e].cachedAt <= evicted[k].cachedAt
    requires LastDidNotFit(base, evicted, |entry.content|)
    ensures Stored(base, evicted[key := entry], key, entry)
  {
    var after := evicted[key := entry];
    assert forall k :: k in after && k != key ==> k in base && after[k] == base[k];
    assert forall e, k :: e in base && e !in after && k in after && k != key ==> base[e].cachedAt <= after[k].cachedAt;
    if Total(base) + |entry.content| <= CACHE_MAX {
      assert after == base[key := entry];
    }
    StoppedWhenFits(base, evicted, key, entry);
  }

  /** When eviction took anything, the last entry it took did not leave
      room for the content beside the kept entries. */
  lemma StoppedWhenFits(base: map<string, Entry>, evicted: map<string, Entry>, key: string, entry: Entry)
    requires forall k :: k in evicted ==> k in base && evicted[k] == base[k]
    requires LastDidNotFit(base, evicted, |entry.content|)
    ensures StoppedAtFit(base, evicted[key := entry], |entry.content|)
  {
    var after := evicted[key := entry];
    if e :| e in base && e !in after {
      assert evicted != base;
      var last :| last in base && last !in evicted && Total(evicted) + |base[last].content| + |entry.content| > CACHE_MAX;
      var kept := Kept(base, after);
      if last != key {
        TotalSub(evicted, kept);
        assert last in base && last !in after;
      } else {
        assert kept - {key} == evicted;
        TotalRemove(kept, key);
        assert Total(kept) + |base[e].content| + |entry.content| > CACHE_MAX;
      }
    }
  }

  /** Stored pins down how much eviction takes: with a one-byte entry
      cached before one that fills the rest of the cache, storing one more
      byte takes out the older entry only, and emptying the whole cache is
      not a Stored result. */
  lemma OverEvictionNotStored()
    ensures var a := Entry("a", "text/plain", "", 0, 0, 1);
      var b := Entry(seq(CACHE_MAX - 1, _ => 'b'), "text/plain", "", 0, 1, CACHE_MAX - 1);
      var entry := Entry("c", "text/plain", "", 0, 2, 1);
      var base := map["/a" := a, "/b" := b];
      Total(base) + |entry.content| > CACHE_MAX &&
      Stored(base, map["/b" := b, "/c" := entry], "/c", entry) &&
      !Stored(base, map["/c" := entry], "/c", entry)
  {
    var a := Entry("a", "text/plain", "", 0, 0, 1);
    var b := Entry(seq(CACHE_MAX - 1, _ => 'b'), "text/plain", "", 0, 1, CACHE_MAX - 1);
    var entry := Entry("c", "text/plain", "", 0, 2, 1);
    var base := map["/a" := a, "/b" := b];
    TotalRemove(base, "/a");
    assert base - {"/a"} == map["/b" := b];
    TotalSingle("/b", b);
    var kept := Kept(base, map["/b" := b, "/c" := entry]);
    assert kept == map["/b" := b];
    assert "/a" in base && "/a" !in map["/b" := b, "/c" := entry];
    var none := Kept(base, map["/c" := entry]);
    assert none == map[];
    assert "/a" in base && "/a" !in map["/c" := entry];
    assert !StoppedAtFit(base, map["/c" := entry], |entry.content|) by {
      forall e | e in base && e !in map["/c" := entry]
        ensures Total(none) + |base[e].content| + |entry.content| <= CACHE_MAX
      {
        assert e == "/a" || e == "/b";
      }
    }
  }

  /** The server's cache: file_cache_ and current_cache_size_. */
  class Server {
    const rootDir: string
    var cache: map<string, Entry>
    var cacheSize: nat

    /** current_cache_size_ is the sum of the cached content sizes, and
        stays within the limit. */
    ghost predicate Valid()
      reads this
    {
      cacheSize == Total(cache) && cacheSize <= CACHE_MAX
    }

    constructor(rootDir: string)
      ensures this.rootDir == rootDir && cache == map[] && cacheSize == 0
      ensures Valid()
    {
      this.rootDir := rootDir;
      cache := map[];
      cacheSize := 0;
    }

    /** Take one entry out, keeping the size in step. */
    method Remove(key: string)
      requires Valid() && key in cache
      modifies this
      ensures Valid()
      ensures cache == old(cache) - {key} && cacheSize == old(cacheSize) - |old(cache)[key].content|
    {
      TotalRemove(cache, key);
      cacheSize := cacheSize - |cache[key].content|;
      cache := cache - {key};
    }

    /** cleanup_cache: every entry that is no longer fresh goes. */
    method CleanupCache(now: int)
      requires Valid()
      modifies this
      ensures Valid()
      ensures cache == Live(old(cache), now)
    {
      var keys := cache.Keys;
      while keys != {}
        invariant keys <= old(cache).Keys
        invariant cache == map k | k in old(cache) && (k in keys || Fresh(old(cache)[k], now)) :: old(cache)[k]
        invariant Valid()
        decreases keys
      {
        var k :| k in keys;
        keys := keys - {k};
        if !Fresh(cache[k], now) {
          Remove(k);
        }
      }
    }

    /** The key of an entry cached no later than any other. */
    method Oldest() returns (key: string)
      requires cache != map[]
      ensures key in cache && forall j :: j in cache ==> cache[key].cachedAt <= cache[j].cachedAt
    {
      key :| key in cache;
      var rest := cache.Keys - {key};
      while rest != {}
        invariant key in cache && rest <= cache.Keys
        invariant forall j :: j in cache && j !in rest ==> cache[key].cachedAt <= cache[j].cachedAt
        decreases rest
      {
        var j :| j in rest;
        rest := rest - {j};
        if cache[j].cachedAt < cache[key].cachedAt {
          key := j;
        }
      }
    }

    /** evict_cache_if_needed: oldest entries go until the new content fits
        or the cache is empty. */
    method EvictIfNeeded(newSize: nat)
      requires Valid()
      modifies this
      ensures Valid()
      ensures cacheSize + newSize <= CACHE_MAX || cache == map[]
      ensures forall k :: k in cache ==> k in old(cache) && cache[k] == old(cache)[k]
      ensures old(cacheSize) + newSize <= CACHE_MAX ==> cache == old(cache)
      ensures forall e, k :: e in old(cache) && e !in cache && k in cache ==> old(cache)[e].cachedAt <= cache[k].cachedAt
      ensures cache != old(cache) ==>
        exists e :: e in old(cache) && e !in cache && cacheSize + |old(cache)[e].content| + newSize > CACHE_MAX
    {
      ghost var last: string := "";
      while cacheSize + newSize > CACHE_MAX && cache != map[]
        invariant Valid()
        invariant forall k :: k in cache ==> k in old(cache) && cache[k] == old(cache)[k]
        invariant old(cacheSize) + newSize <= CACHE_MAX ==> cache == old(cache)
        invariant forall e, k :: e in old(cache) && e !in cache && k in cache ==> old(cache)[e].cachedAt <= cache[k].cachedAt
        invariant cache != old(cache) ==>
          last in old(cache) && last !in cache && cacheSize + |old(cache)[last].content| + newSize > CACHE_MAX
        decreases |cache|
      {
        var oldest := Oldest();
        MapRemoveSize(cache, oldest);
        Remove(oldest);
        last := oldest;
      }
    }

    /** Caching new content under key, once it fits: an entry already under
        key is taken out first, so the size stays the sum of the sizes. */
    method Store(key: string, entry: Entry)
      requires Valid() && cacheSize + |entry.content| <= CACHE_MAX
      modifies this
      ensures Valid()
      ensures cache == old(cache)[key := entry]
    {
      if key in cache {
        Remove(key);
      }
      var m := cache[key := entry];
      assert m - {key} == cache;
      TotalRemove(m, key);
      cacheSize := cacheSize + |entry.content|;
      cache := m;
    }

    /** The cache part of handle_request for a file that exists: a fresh
        cached copy no older than the file is served; otherwise the file is
        read, served, and cached when it is no larger than the cache. */
    method Serve(path: string, info: FileInfo, etag: string, lookupNow: int, storeNow: int) returns (response: string)
      requires Valid() && info.size.Some?
      modifies this
      ensures Valid()
      ensures var hit := path in old(cache) && Fresh(old(cache)[path], lookupNow) && info.lastWrite <= old(cache)[path].lastModified;
        var base := Base(old(cache), path, info, lookupNow);
        (hit ==>
           cache == old(cache) &&
           response == Response(OK, old(cache)[path].contentType, old(cache)[path].content, old(cache)[path].etag)) &&
        (!hit && info.content.None? ==> cache == base && response == ErrorResponse(InternalServerError, "")) &&
        (!hit && info.content.Some? ==> response == Response(OK, ContentType(path), info.content.value, etag)) &&
        (!hit && info.content.Some? && |info.content.value| > CACHE_MAX ==> cache == base) &&
        (!hit && info.content.Some? && |info.content.value| <= CACHE_MAX ==>
           Stored(base, cache, path, Entry(info.content.value, ContentType(path), etag, info.lastWrite, storeNow, info.size.value)))
    {
      if path in cache && Fresh(cache[path], lookupNow) {
        var entry := cache[path];
        if info.lastWrite <= entry.lastModified {
          return Response(OK, entry.contentType, entry.content, entry.etag);
        }
        Remove(path);
      }
      response := Fetch(path, info, etag, storeNow);
    }

    /** The miss path of Serve: the file's content is served, and cached
        under path when it is no larger than the cache; an unreadable file
        is a 500 and leaves the cache alone. */
    method Fetch(path: string, info: FileInfo, etag: string, storeNow: int) returns (response: string)
      requires Valid() && info.size.Some?
      modifies this
      ensures Valid()
      ensures info.content.None? ==> cache == old(cache) && response == ErrorResponse(InternalServerError, "")
      ensures info.content.Some? ==> response == Response(OK, ContentType(path), info.content.value, etag)
      ensures info.content.Some? && |info.content.value| > CACHE_MAX ==> cache == old(cache)
      ensures info.content.Some? && |info.content.value| <= CACHE_MAX ==>
        Stored(old(cache), cache, path, Entry(info.content.value, ContentType(path), etag, info.lastWrite, storeNow, info.size.value))
    {
      if info.content.None? {
        return ErrorResponse(InternalServerError, "");
      }
      var content := info.content.value;
      var contentType := ContentType(path);
      if |content| <= CACHE_MAX {
        ghost var base := cache;
        EvictIfNeeded(|content|);
        ghost var evicted := cache;
        Store(path, Entry(content, contentType, etag, info.lastWrite, storeNow, info.size.value));
        StoredAfterEviction(base, evicted, path, Entry(content, contentType, etag, info.lastWrite, storeNow, info.size.value));
      }
      response := Response(OK, contentType, content, etag);
    }

    /** resolve_path over this server's root. */
    method ResolvePath(path: string, fs: Files) returns (r: Option<string>)
      ensures r == Resolve(path, fs, rootDir)
    {
      var p := if path == "/" then INDEX else path;
      var decoded := DecodePath(p);
      if decoded.None? {
        return None;
      }
      var d := decoded.value;
      assert Resolve(path, fs, rootDir) == Some(ResolveDecoded(d, fs, rootDir));
      if Find(d, "..", 0).Some? {
        return Some(INDEX);
      }
      var noDot := FindChar(d, '.', 0).None?;
      assert noDot <==> '.' !in d;
      if noDot && (d == [] || d[|d| - 1] != '/') {
        if rootDir + d + INDEX in fs {
          return Some(d + INDEX);
        }
        if rootDir + d + ".html" in fs {
          return Some(d + ".html");
        }
      }
      return Some(d);
    }

    /** The checks handle_request makes before it looks at the cache. */
    method Check(request: HttpRequest.Request, fs: Files, etagOf: (string, nat, int) -> string) returns (t: Target)
      ensures t == Route(request, fs, rootDir, etagOf)
    {
      if request.methodName != GET {
        return Reply(ErrorResponse(MethodNotAllowed, ""));
      }
      var resolved := ResolvePath(request.path, fs);
      if resolved.None? {
        return Reply(ErrorResponse(InternalServerError, ""));
      }
      var filePath := rootDir + resolved.value;
      if filePath !in fs || fs[filePath].isDirectory {
        return Reply(ErrorResponse(NotFound, ""));
      }
      var info := fs[filePath];
      if info.size.None? {
        return Reply(ErrorResponse(InternalServerError, ""));
      }
      var etag := etagOf(filePath, info.size.value, info.lastWrite);
      var client := HttpRequest.IfNoneMatch(request);
      if client != "" && client == etag {
        return Reply(Response(NotModified, "", "", ""));
      }
      return File(resolved.value, info, etag);
    }

    /** handle_request: an answer given before the cache leaves the cache
        as it was; otherwise the stale entries go and the file is served
        from the cache or read, and the size bookkeeping stays exact. */
    method Handle(request: HttpRequest.Request, fs: Files, etagOf: (string, nat, int) -> string,
                  cleanupNow: int, lookupNow: int, storeNow: int) returns (response: string)
      requires Valid()
      modifies this
      ensures Valid()
      ensures Route(request, fs, rootDir, etagOf).Reply? ==>
        response == Route(request, fs, rootDir, etagOf).response && cache == old(cache)
      ensures Route(request, fs, rootDir, etagOf).File? ==>
        var t := Route(request, fs, rootDir, etagOf);
        var live := Live(old(cache), cleanupNow);
        var hit := t.resolved in live && Fresh(live[t.resolved], lookupNow) &&
          t.info.lastWrite <= live[t.resolved].lastModified;
        var base := Base(live, t.resolved, t.info, lookupNow);
        (hit ==>
           cache == live &&
           response == Response(OK, live[t.resolved].contentType, live[t.resolved].content, live[t.resolved].etag)) &&
        (!hit && t.info.content.None? ==> cache == base && response == ErrorResponse(InternalServerError, "")) &&
        (!hit && t.info.content.Some? ==> response == Response(OK, ContentType(t.resolved), t.info.content.value, t.etag)) &&
        (!hit && t.info.content.Some? && |t.info.content.value| > CACHE_MAX ==> cache == base) &&
        (!hit && t.info.content.Some? && |t.info.content.value| <= CACHE_MAX ==>
           var entry := Entry(t.info.content.value, ContentType(t.resolved), t.etag, t.info.lastWrite, storeNow, t.info.size.value);
           Stored(base, cache, t.resolved, entry))
    {
      var t := Check(request, fs, etagOf);
      if t.Reply? {
        return t.response;
      }
      CleanupCache(cleanupNow);
      response := Serve(t.resolved, t.info, t.etag, lookupNow, storeNow);
    }
  }
}
