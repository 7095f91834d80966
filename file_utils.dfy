/** String, route and front-matter utilities (utils/file_utils.hpp and
    utils/file_utils.cpp).  The filesystem helpers are not modelled: a path is
    a string, and path_to_route takes the already relativised path. */
module FileUtils {
  import opened Wrappers
  import opened Chars
  import opened StdString

  // ---------------------------------------------------------------------
  // starts_with / ends_with

  /** starts_with(s, p): p is a prefix of s.  A prefix longer than s is
      rejected before any comparison. */
  function StartsWith(s: string, p: string): (r: bool)
    ensures r <==> p <= s
  {
    |s| >= |p| && s[..|p|] == p
  }

  /** ends_with(s, x): x is a suffix of s. */
  function EndsWith(s: string, x: string): (r: bool)
    ensures r <==> |x| <= |s| && forall k :: 0 <= k < |x| ==> s[|s| - |x| + k] == x[k]
  {
    var ok := |s| >= |x| && s[|s| - |x|..] == x;
    ok
  }

  // ---------------------------------------------------------------------
  // Trimming a set of characters off both ends (find_first_not_of /
  // find_last_not_of)

  predicate AllIn(t: string, ws: set<char>) { forall k :: 0 <= k < |t| ==> t[k] in ws }

  /** find_first_not_of(ws), or |s| when there is none. */
  function FirstNotIn(s: string, ws: set<char>): (i: nat)
    ensures i <= |s| && AllIn(s[..i], ws)
    ensures i < |s| ==> s[i] !in ws
  {
    if s == [] || s[0] !in ws then 0
    else
      var n := FirstNotIn(s[1..], ws);
      assert s[..n + 1] == [s[0]] + s[1..][..n];
      n + 1
  }

  /** One past find_last_not_of(ws), or 0 when there is none. */
  function EndNotIn(s: string, ws: set<char>): (j: nat)
    ensures j <= |s| && AllIn(s[j..], ws)
    ensures j > 0 ==> s[j - 1] !in ws
  {
    if s == [] || s[|s| - 1] !in ws then |s|
    else
      var n := EndNotIn(s[..|s| - 1], ws);
      assert s[n..] == s[..|s| - 1][n..] + [s[|s| - 1]];
      n
  }

  /** The string without its leading and trailing characters from ws. */
  function Strip(s: string, ws: set<char>): (r: string)
    ensures r != [] ==> r[0] !in ws && r[|r| - 1] !in ws
    ensures AllIn(s, ws) ==> r == []
  {
    var i := FirstNotIn(s, ws);
    if i == |s| then
      assert s[..i] == s;
      assert s == s[..0] + s[0..] && AllIn(s[0..], ws);
      ""
    else
      var j := EndNotIn(s, ws);
      assert j > i;
      s[i..j]
  }

  /** What Strip keeps is a slice of s with only chars of ws around it. */
  lemma StripBounds(s: string, ws: set<char>) returns (i: nat, j: nat)
    ensures i <= j <= |s| && Strip(s, ws) == s[i..j]
    ensures AllIn(s[..i], ws) && AllIn(s[j..], ws)
  {
    i := FirstNotIn(s, ws);
    if i == |s| {
      j := i;
    } else {
      j := EndNotIn(s, ws);
    }
  }

  /** Stripping is idempotent. */
  lemma StripIdempotent(s: string, ws: set<char>)
    ensures Strip(Strip(s, ws), ws) == Strip(s, ws)
  {
    var r := Strip(s, ws);
    if r != [] {
      assert FirstNotIn(r, ws) == 0;
      assert EndNotIn(r, ws) == |r|;
      assert r[0..|r|] == r;
    }
  }

  /** The characters StringUtils::trim strips. */
  const TrimSpace: set<char> := {' ', '\t', '\r', '\n'}

  /** StringUtils::trim. */
  function Trim(s: string): (r: string)
    ensures r != [] ==> r[0] !in TrimSpace && r[|r| - 1] !in TrimSpace
    ensures AllIn(s, TrimSpace) ==> r == ""
  {
    Strip(s, TrimSpace)
  }

  /** trim is idempotent. */
  lemma TrimIdempotent(s: string)
    ensures Trim(Trim(s)) == Trim(s)
  {
    StripIdempotent(s, TrimSpace);
  }

  /** Neither end of s is trimmed white space. */
  predicate Unpadded(s: string) {
    s != [] ==> s[0] !in TrimSpace && s[|s| - 1] !in TrimSpace
  }

  /** A string whose ends are not white space is its own trim. */
  lemma TrimUnchanged(s: string)
    requires Unpadded(s)
    ensures Trim(s) == s
  {
    if s != [] {
      assert FirstNotIn(s, TrimSpace) == 0;
      assert EndNotIn(s, TrimSpace) == |s|;
      assert s[0..|s|] == s;
    }
  }

  // ---------------------------------------------------------------------
  // split: std::getline on a delimiter, then trim

  /** The pieces std::getline(stream, piece, d) yields from s: nothing for
      the empty string, and no empty piece after a final delimiter. */
  function Pieces(s: string, d: char): (ps: seq<string>)
    ensures forall k :: 0 <= k < |ps| ==> d !in ps[k]
    ensures s == [] <==> ps == []
    decreases |s|
  {
    if s == [] then []
    else match FindChar(s, d, 0)
      case None => [s]
      case Some(k) => [s[..k]] + Pieces(s[k + 1..], d)
  }

  /** Reading past a delimiter restarts getline: the pieces of a + b are
      those of a followed by those of b when a ends at a delimiter. */
  lemma {:induction false} PiecesAppend(a: string, b: string, d: char)
    requires a == [] || a[|a| - 1] == d
    ensures Pieces(a + b, d) == Pieces(a, d) + Pieces(b, d)
    decreases |a|
  {
    if a != [] {
      var k := FindFirst(a, d);
      var head, rest := a[..k], a[k + 1..];
      PiecesHead(a, d, k);
      PiecesAppendHead(a, b, d, k);
      PiecesAppend(rest, b, d);
      SeqAssoc([head], Pieces(rest, d), Pieces(b, d));
    } else {
      assert a + b == b;
    }
  }

  /** The first delimiter of a is the first one of a + b. */
  lemma PiecesAppendHead(a: string, b: string, d: char, k: nat)
    requires k < |a| && a[k] == d && forall m :: 0 <= m < k ==> a[m] != d
    ensures Pieces(a + b, d) == [a[..k]] + Pieces(a[k + 1..] + b, d)
  {
    PiecesHead(a + b, d, k);
    TakeAppend(a, b, k);
    DropAppend(a, b, k + 1);
  }

  function FindFirst(a: string, d: char): (k: nat)
    requires d in a
    ensures k < |a| && a[k] == d && forall m :: 0 <= m < k ==> a[m] != d
  {
    if a[0] == d then 0 else 1 + FindFirst(a[1..], d)
  }

  /** The pieces of a delimiter-free chunk followed by the delimiter. */
  lemma PiecesOfLine(t: string, d: char)
    requires d !in t
    ensures Pieces(t + [d], d) == [t]
    ensures t != [] ==> Pieces(t, d) == [t]
  {
    FindCharFirst(t + [d], d, 0, |t|);
    assert (t + [d])[..|t|] == t;
    assert (t + [d])[|t| + 1..] == [];
    if t != [] { FindCharNone(t, d, 0); }
  }

  /** The loop step of split: a delimiter at i closes the piece s[start..i]. */
  lemma SplitStep(s: string, start: nat, i: nat, d: char)
    requires start <= i < |s| && s[i] == d
    requires start == 0 || s[start - 1] == d
    requires forall k :: start <= k < i ==> s[k] != d
    ensures Pieces(s[..i + 1], d) == Pieces(s[..start], d) + [s[start..i]]
  {
    var a, b, t := s[..start], s[start..i + 1], s[start..i];
    assert a + b == s[..i + 1];
    assert b == t + [d];
    assert d !in t;
    PiecesAppend(a, b, d);
    PiecesOfLine(t, d);
  }

  /** The end of split: what follows the last delimiter is the last piece. */
  lemma SplitEnd(s: string, start: nat, d: char)
    requires start <= |s|
    requires start == 0 || s[start - 1] == d
    requires forall k :: start <= k < |s| ==> s[k] != d
    ensures Pieces(s, d) == Pieces(s[..start], d) + (if start < |s| then [s[start..]] else [])
  {
    var a, b := s[..start], s[start..];
    assert a + b == s;
    assert d !in b;
    PiecesAppend(a, b, d);
    if start < |s| {
      PiecesOfLine(b, d);
    } else {
      assert b == [];
    }
  }

  /** trim applied to every piece. */
  function TrimAll(ps: seq<string>): (r: seq<string>)
    ensures |r| == |ps| && forall k :: 0 <= k < |ps| ==> r[k] == Trim(ps[k])
  {
    if ps == [] then [] else [Trim(ps[0])] + TrimAll(ps[1..])
  }

  /** StringUtils::split: every getline piece, trimmed. */
  method Split(s: string, d: char) returns (tokens: seq<string>)
    ensures tokens == TrimAll(Pieces(s, d))
    ensures s == [] ==> tokens == []
  {
    tokens := [];
    var start, i := 0, 0;
    while i < |s|
      invariant 0 <= start <= i <= |s|
      invariant start == 0 || s[start - 1] == d
      invariant forall k :: start <= k < i ==> s[k] != d
      invariant tokens == TrimAll(Pieces(s[..start], d))
    {
      if s[i] == d {
        SplitStep(s, start, i, d);
        TrimAllSnoc(Pieces(s[..start], d), s[start..i]);
        tokens := tokens + [Trim(s[start..i])];
        start := i + 1;
      }
      i := i + 1;
    }
    SplitEnd(s, start, d);
    if start < |s| {
      TrimAllSnoc(Pieces(s[..start], d), s[start..]);
      tokens := tokens + [Trim(s[start..])];
    } else {
      assert s[..start] == s;
    }
  }

  lemma TrimAllSnoc(ps: seq<string>, p: string)
    ensures TrimAll(ps + [p]) == TrimAll(ps) + [Trim(p)]
  {
  }

  // ---------------------------------------------------------------------
  // join

  /** The parts with the separator between neighbours. */
  function JoinSpec(parts: seq<string>, sep: string): string
  {
    if |parts| == 0 then ""
    else if |parts| == 1 then parts[0]
    else JoinSpec(parts[..|parts| - 1], sep) + sep + parts[|parts| - 1]
  }

  /** StringUtils::join. */
  method Join(parts: seq<string>, sep: string) returns (r: string)
    ensures r == JoinSpec(parts, sep)
    ensures parts == [] ==> r == ""
  {
    if |parts| == 0 {
      return "";
    }
    r := "";
    var i := 0;
    while i < |parts|
      invariant 0 <= i <= |parts|
      invariant i == 0 ==> r == ""
      invariant i > 0 ==> r == JoinSpec(parts[..i], sep)
    {
      if i > 0 {
        r := r + sep;
      }
      r := r + parts[i];
      assert parts[..i + 1][..i] == parts[..i];
      i := i + 1;
    }
    assert parts[..i] == parts;
  }

  function TotalLength(parts: seq<string>): nat
  {
    if parts == [] then 0 else TotalLength(parts[..|parts| - 1]) + |parts[|parts| - 1]|
  }

  /** A join of n >= 1 parts holds the parts and exactly n - 1 separators. */
  lemma {:induction false} JoinLength(parts: seq<string>, sep: string)
    requires |parts| >= 1
    ensures |JoinSpec(parts, sep)| == TotalLength(parts) + (|parts| - 1) * |sep|
    decreases |parts|
  {
    if |parts| > 1 {
      JoinLength(parts[..|parts| - 1], sep);
    } else {
      assert parts[..0] == [];
    }
  }

  lemma JoinSnoc(parts: seq<string>, p: string, sep: string)
    requires parts != []
    ensures JoinSpec(parts + [p], sep) == JoinSpec(parts, sep) + sep + p
  {
    assert (parts + [p])[..|parts|] == parts;
  }

  lemma {:induction false} JoinCons(p: string, parts: seq<string>, sep: string)
    requires parts != []
    ensures JoinSpec([p] + parts, sep) == p + sep + JoinSpec(parts, sep)
    decreases |parts|
  {
    var all := [p] + parts;
    if |parts| == 1 {
      assert all[..1] == [p] && all[1] == parts[0];
    } else {
      var init := parts[..|parts| - 1];
      var last := parts[|parts| - 1];
      assert all[..|all| - 1] == [p] + init && all[|all| - 1] == last;
      assert JoinSpec(all, sep) == JoinSpec([p] + init, sep) + sep + last;
      JoinCons(p, init, sep);
      assert JoinSpec(parts, sep) == JoinSpec(init, sep) + sep + last;
      var j := JoinSpec(init, sep);
      assert (p + sep + j) + sep + last == p + sep + (j + sep + last);
    }
  }

  /** join undoes split's getline step: rejoining the pieces with the
      delimiter gives the input back, unless the input ends with the
      delimiter, which getline swallows. */
  lemma {:induction false} JoinPieces(s: string, d: char)
    requires s == [] || s[|s| - 1] != d
    ensures JoinSpec(Pieces(s, d), [d]) == s
    decreases |s|
  {
    if s != [] {
      if d in s {
        var k := FindFirst(s, d);
        var head, rest := s[..k], s[k + 1..];
        PiecesHead(s, d, k);
        assert rest != [] && rest[|rest| - 1] == s[|s| - 1];
        JoinPieces(rest, d);
        JoinCons(head, Pieces(rest, d), [d]);
        SplitAround(s, k);
      } else {
        assert Pieces(s, d) == [s] by { FindCharNone(s, d, 0); }
      }
    }
  }

  lemma SplitAround(s: string, k: nat)
    requires k < |s|
    ensures s == s[..k] + [s[k]] + s[k + 1..]
  {
  }

  /** The first piece ends at the first delimiter. */
  lemma PiecesHead(s: string, d: char, k: nat)
    requires k < |s| && s[k] == d && forall m :: 0 <= m < k ==> s[m] != d
    ensures Pieces(s, d) == [s[..k]] + Pieces(s[k + 1..], d)
  {
    FindCharFirst(s, d, 0, k);
  }

  /** A delimiter appended to s adds no piece when it closes a non-empty
      last piece, and one empty piece when s is empty or already ends at
      a delimiter: getline yields no empty token after a final delimiter. */
  lemma {:induction false} TrailingDelimiter(s: string, d: char)
    ensures Pieces(s + [d], d) == Pieces(s, d) + (if s == [] || s[|s| - 1] == d then [""] else [])
    decreases |s|
  {
    if d !in s {
      TrailingLine(s, d);
    } else {
      var k := FindFirst(s, d);
      var rest := PiecesSnoc(s, d, k);
      TrailingDelimiter(rest, d);
      TrailingAfterFirst(s, d, k, rest);
    }
  }

  /** TrailingDelimiter for a single line. */
  lemma TrailingLine(s: string, d: char)
    requires d !in s
    ensures Pieces(s + [d], d) == Pieces(s, d) + (if s == [] || s[|s| - 1] == d then [""] else [])
  {
    PiecesOfLine(s, d);
  }

  /** TrailingDelimiter for s from TrailingDelimiter for what follows its
      first delimiter k. */
  lemma TrailingAfterFirst(s: string, d: char, k: nat, rest: string)
    requires k < |s| && s[k] == d && rest == s[k + 1..]
    requires Pieces(s, d) == [s[..k]] + Pieces(rest, d)
    requires Pieces(s + [d], d) == [s[..k]] + Pieces(rest + [d], d)
    requires Pieces(rest + [d], d) == Pieces(rest, d) + (if rest == [] || rest[|rest| - 1] == d then [""] else [])
    ensures Pieces(s + [d], d) == Pieces(s, d) + (if s == [] || s[|s| - 1] == d then [""] else [])
  {
    var head: seq<string> := [s[..k]];
    if rest == [] {
      assert |s| == k + 1;
      assert head + (Pieces(rest, d) + [""]) == head + Pieces(rest, d) + [""];
    } else {
      assert s[|s| - 1] == rest[|rest| - 1];
      if rest[|rest| - 1] == d {
        assert head + (Pieces(rest, d) + [""]) == head + Pieces(rest, d) + [""];
      } else {
        assert Pieces(rest, d) + [] == Pieces(rest, d);
        assert Pieces(s, d) + [] == Pieces(s, d);
      }
    }
  }

  /** Both s and s + [d] begin with the piece that ends at the first
      delimiter k of s; what follows is read from rest. */
  lemma PiecesSnoc(s: string, d: char, k: nat) returns (rest: string)
    requires k < |s| && s[k] == d && forall m :: 0 <= m < k ==> s[m] != d
    ensures rest == s[k + 1..]
    ensures Pieces(s, d) == [s[..k]] + Pieces(rest, d)
    ensures Pieces(s + [d], d) == [s[..k]] + Pieces(rest + [d], d)
  {
    rest := s[k + 1..];
    PiecesHead(s, d, k);
    PiecesHead(s + [d], d, k);
    assert (s + [d])[..k] == s[..k];
    assert (s + [d])[k + 1..] == rest + [d];
  }

  // ---------------------------------------------------------------------
  // to_lower and slugify

  /** StringUtils::to_lower. */
  function ToLowerString(s: string): (r: string)
    ensures |r| == |s| && forall i :: 0 <= i < |s| ==> r[i] == ToLower(s[i])
  {
    Lower(s)
  }

  predicate IsSlugChar(c: char) { IsLower(c) || IsDigit(c) }

  /** The length of the leading run of non-[a-z0-9] chars. */
  function NonSlugRun(s: string): (n: nat)
    ensures n <= |s| && forall k :: 0 <= k < n ==> !IsSlugChar(s[k])
    ensures n < |s| ==> IsSlugChar(s[n])
  {
    if s == [] || IsSlugChar(s[0]) then 0 else 1 + NonSlugRun(s[1..])
  }

  /** No two neighbouring chars are both '-'. */
  predicate NoDoubleDash(r: string) {
    forall k, m :: 0 <= k < |r| && 0 <= m < |r| && k + 1 == m ==> !(r[k] == '-' && r[m] == '-')
  }

  /** regex_replace(s, "[^a-z0-9]+", "-"): each maximal run of other chars
      becomes one '-'. */
  function CollapseRuns(s: string): (r: string)
    ensures forall k :: 0 <= k < |r| ==> IsSlugChar(r[k]) || r[k] == '-'
    ensures NoDoubleDash(r)
    ensures s != [] && !IsSlugChar(s[0]) <==> r != [] && r[0] == '-'
    decreases |s|
  {
    if s == [] then []
    else if IsSlugChar(s[0]) then [s[0]] + CollapseRuns(s[1..])
    else
      var n := NonSlugRun(s);
      var rest := CollapseRuns(s[n..]);
      "-" + rest
  }

  /** StringUtils::slugify: lower-case, collapse, then regex "^-+|-+$"
      removed. */
  function Slugify(text: string): (slug: string)
  {
    Strip(CollapseRuns(Lower(text)), {'-'})
  }

  /** The chars of s that are kept by a slug, in order. */
  function SlugChars(s: string): (r: string)
  {
    if s == [] then [] else SlugChar(s[0]) + SlugChars(s[1..])
  }

  /** The char itself when a slug keeps it, else nothing. */
  function SlugChar(c: char): string {
    if IsSlugChar(c) then [c] else []
  }

  lemma {:induction false} SlugCharsAppend(a: string, b: string)
    ensures SlugChars(a + b) == SlugChars(a) + SlugChars(b)
    decreases |a|
  {
    if a == [] {
      assert a + b == b;
    } else {
      var ab := a + b;
      assert ab != [] && ab[0] == a[0] && ab[1..] == a[1..] + b;
      SlugCharsAppend(a[1..], b);
      assert SlugChars(ab) == SlugChar(a[0]) + (SlugChars(a[1..]) + SlugChars(b));
    }
  }

  lemma {:induction false} SlugCharsNone(s: string)
    requires forall k :: 0 <= k < |s| ==> !IsSlugChar(s[k])
    ensures SlugChars(s) == []
    decreases |s|
  {
    if s != [] { SlugCharsNone(s[1..]); }
  }

  lemma {:induction false} CollapseKeepsSlugChars(s: string)
    ensures SlugChars(CollapseRuns(s)) == SlugChars(s)
    decreases |s|
  {
    if s != [] {
      if IsSlugChar(s[0]) {
        CollapseKeepsSlugChars(s[1..]);
        SlugCharsAppend([s[0]], CollapseRuns(s[1..]));
      } else {
        var n := NonSlugRun(s);
        CollapseKeepsSlugChars(s[n..]);
        SlugCharsAppend("-", CollapseRuns(s[n..]));
        assert s == s[..n] + s[n..];
        SlugCharsAppend(s[..n], s[n..]);
        SlugCharsNone(s[..n]);
      }
    }
  }

  lemma SlugCharsOfSlice(s: string, i: nat, j: nat)
    requires i <= j <= |s|
    requires AllIn(s[..i], {'-'}) && AllIn(s[j..], {'-'})
    ensures SlugChars(s[i..j]) == SlugChars(s)
  {
    var a, m, b := s[..i], s[i..j], s[j..];
    ThreeSlices(s, i, j);
    SlugCharsAppend(a + m, b);
    SlugCharsAppend(a, m);
    SlugCharsDashes(a);
    SlugCharsDashes(b);
  }

  lemma ThreeSlices(s: string, i: nat, j: nat)
    requires i <= j <= |s|
    ensures s == s[..i] + s[i..j] + s[j..]
  {
  }

  lemma SlugCharsDashes(s: string)
    requires AllIn(s, {'-'})
    ensures SlugChars(s) == []
  {
    SlugCharsNone(s);
  }

  /** A slug is made of [a-z0-9-] and never starts or ends with '-'. */
  lemma SlugifyAlphabet(text: string)
    ensures var slug := Slugify(text);
      && (forall k :: 0 <= k < |slug| ==> IsSlugChar(slug[k]) || slug[k] == '-')
      && (slug != [] ==> slug[0] != '-' && slug[|slug| - 1] != '-')
  {
    var c := CollapseRuns(Lower(text));
    var i, j := StripBounds(c, {'-'});
    SliceAlphabet(c, i, j);
  }

  lemma SliceAlphabet(c: string, i: nat, j: nat)
    requires i <= j <= |c|
    requires forall k :: 0 <= k < |c| ==> IsSlugChar(c[k]) || c[k] == '-'
    ensures forall k :: 0 <= k < j - i ==> IsSlugChar(c[i..j][k]) || c[i..j][k] == '-'
  {
    forall k | 0 <= k < j - i ensures IsSlugChar(c[i..j][k]) || c[i..j][k] == '-' {
      assert c[i..j][k] == c[i + k];
    }
  }

  /** A slug never holds "--". */
  lemma SlugifyNoDoubleDash(text: string)
    ensures NoDoubleDash(Slugify(text))
  {
    var c := CollapseRuns(Lower(text));
    var i, j := StripBounds(c, {'-'});
    SliceNoDoubleDash(c, i, j);
  }

  lemma SliceNoDoubleDash(c: string, i: nat, j: nat)
    requires i <= j <= |c| && NoDoubleDash(c)
    ensures NoDoubleDash(c[i..j])
  {
    var slug := c[i..j];
    forall k, m | 0 <= k < |slug| && 0 <= m < |slug| && k + 1 == m ensures !(slug[k] == '-' && slug[m] == '-') {
      assert slug[k] == c[i + k] && slug[m] == c[i + m];
    }
  }

  /** A slug keeps every [a-z0-9] char of the lower-cased text, in order,
      and nothing else but dashes. */
  lemma SlugifyKeepsAlnum(text: string)
    ensures SlugChars(Slugify(text)) == SlugChars(Lower(text))
  {
    var c := CollapseRuns(Lower(text));
    var i, j := StripBounds(c, {'-'});
    SlugCharsOfSlice(c, i, j);
    CollapseKeepsSlugChars(Lower(text));
  }

  // ---------------------------------------------------------------------
  // parse_array: every match of "([^"]+)", in order

  /** The contents of each non-empty double-quoted run, scanning as
      std::sregex_iterator does: an empty pair "" is no match, and the
      search resumes at its second quote. */
  function QuotedItems(s: string): (items: seq<string>)
    ensures forall k :: 0 <= k < |items| ==> items[k] != [] && '"' !in items[k]
    decreases |s|
  {
    match FindChar(s, '"', 0)
    case None => []
    case Some(j) =>
      match FindChar(s, '"', j + 1)
      case None => []
      case Some(k) =>
        if k == j + 1 then QuotedItems(s[k..])
        else [s[j + 1..k]] + QuotedItems(s[k + 1..])
  }

  lemma QuotedItemsStep(s: string, o: nat, c: nat)
    requires FindChar(s, '"', 0) == Some(o) && FindChar(s, '"', o + 1) == Some(c)
    ensures c == o + 1 ==> QuotedItems(s) == QuotedItems(s[c..])
    ensures c != o + 1 ==> QuotedItems(s) == [s[o + 1..c]] + QuotedItems(s[c + 1..])
  {
  }

  /** StringUtils::parse_array. */
  method ParseArray(arrayStr: string) returns (result: seq<string>)
    ensures result == QuotedItems(arrayStr)
  {
    result := [];
    var rest := arrayStr;
    while true
      invariant result + QuotedItems(rest) == QuotedItems(arrayStr)
      decreases |rest|
    {
      var open := FindChar(rest, '"', 0);
      if open.None? {
        return;
      }
      var close := FindChar(rest, '"', open.value + 1);
      if close.None? {
        return;
      }
      var o, c := open.value, close.value;
      QuotedItemsStep(rest, o, c);
      if c == o + 1 {
        rest := rest[c..];
      } else {
        var item := rest[o + 1..c];
        assert result + QuotedItems(rest) == (result + [item]) + QuotedItems(rest[c + 1..]);
        result := result + [item];
        rest := rest[c + 1..];
      }
    }
  }

  /** Each item written as sep + "\"" + item + "\"". */
  function Quoted(items: seq<string>, sep: string): string
  {
    if items == [] then "" else sep + "\"" + items[0] + "\"" + Quoted(items[1..], sep)
  }

  /** One quoted item at the front is read as that item. */
  lemma QuotedHead(sep: string, x: string, rest: string)
    requires x != [] && '"' !in x && '"' !in sep
    ensures QuotedItems(sep + "\"" + x + "\"" + rest) == [x] + QuotedItems(rest)
  {
    var s := sep + "\"" + x + "\"" + rest;
    var o, c := |sep|, |sep| + 1 + |x|;
    assert FindChar(s, '"', 0) == Some(o) by {
      forall m | 0 <= m < o ensures s[m] != '"' {
        assert s[m] == sep[m];
      }
      assert s[o] == '"';
      FindCharFirst(s, '"', 0, o);
    }
    assert FindChar(s, '"', o + 1) == Some(c) by {
      forall m | o + 1 <= m < c ensures s[m] != '"' {
        assert s[m] == x[m - o - 1];
      }
      assert s[c] == '"';
      FindCharFirst(s, '"', o + 1, c);
    }
    assert s[o + 1..c] == x && s[c + 1..] == rest;
    QuotedItemsStep(s, o, c);
  }

  /** parse_array reads back every non-empty, quote-free item of a quoted
      list such as ["a", "b"], in order. */
  lemma {:induction false} ParseArrayRoundTrip(items: seq<string>, sep: string, tail: string)
    requires forall k :: 0 <= k < |items| ==> items[k] != [] && '"' !in items[k]
    requires '"' !in sep && '"' !in tail
    ensures QuotedItems(Quoted(items, sep) + tail) == items
    decreases |items|
  {
    if items == [] {
      assert Quoted(items, sep) + tail == tail;
      FindCharNone(tail, '"', 0);
    } else {
      var rest := Quoted(items[1..], sep) + tail;
      assert Quoted(items, sep) + tail == sep + "\"" + items[0] + "\"" + rest;
      QuotedHead(sep, items[0], rest);
      ParseArrayRoundTrip(items[1..], sep, tail);
      assert items == [items[0]] + items[1..];
    }
  }

  // ---------------------------------------------------------------------
  // FrontmatterParser

  datatype FrontmatterResult = FrontmatterResult(metadata: map<string, string>, content: string)

  /** FrontmatterParser::parse_line: the key and value around the first ':',
      trimmed, with one pair of surrounding '"' taken off the value. */
  function ParseLine(line: string): (r: Option<(string, string)>)
    ensures r.None? <==> ':' !in line
  {
    match FindChar(line, ':', 0)
    case None => None
    case Some(c) => Some((Trim(line[..c]), Unquote(Trim(line[c + 1..]))))
  }

  /** One pair of surrounding double quotes removed from a value. */
  function Unquote(value: string): (r: string)
    ensures |r| <= |value|
  {
    if StartsWith(value, "\"") && EndsWith(value, "\"") then
      (if |value| >= 2 then value[1..|value| - 1] else "")
    else value
  }

  /** One front-matter line applied to the metadata map: lines that are
      empty or hold no ':' are skipped, a later key overwrites. */
  function ApplyLine(m: map<string, string>, line: string): map<string, string>
  {
    if line != [] then
      match ParseLine(line)
      case None => m
      case Some((k, v)) => m[k := v]
    else m
  }

  function ApplyLines(m: map<string, string>, lines: seq<string>): map<string, string>
    decreases |lines|
  {
    if lines == [] then m else ApplyLines(ApplyLine(m, lines[0]), lines[1..])
  }

  /** The lines are read in order: the last one wins. */
  lemma {:induction false} ApplyLinesSnoc(m: map<string, string>, lines: seq<string>, line: string)
    ensures ApplyLines(m, lines + [line]) == ApplyLine(ApplyLines(m, lines), line)
    decreases |lines|
  {
    if lines == [] {
      assert lines + [line] == [line];
    } else {
      assert (lines + [line])[1..] == lines[1..] + [line];
      ApplyLinesSnoc(ApplyLine(m, lines[0]), lines[1..], line);
    }
  }

  /** The metadata keys are exactly the keys of the original map and of the
      lines that hold a ':'. */
  lemma {:induction false} ApplyLinesKeys(m: map<string, string>, lines: seq<string>, key: string)
    ensures key in ApplyLines(m, lines) <==>
      key in m || exists k :: 0 <= k < |lines| && ParseLine(lines[k]).Some? && ParseLine(lines[k]).value.0 == key
    decreases |lines|
  {
    if lines != [] {
      ApplyLinesKeys(ApplyLine(m, lines[0]), lines[1..], key);
      if exists k :: 0 <= k < |lines| && ParseLine(lines[k]).Some? && ParseLine(lines[k]).value.0 == key {
        var k :| 0 <= k < |lines| && ParseLine(lines[k]).Some? && ParseLine(lines[k]).value.0 == key;
        if k > 0 { assert lines[1..][k - 1] == lines[k]; }
      }
      if exists k :: 0 <= k < |lines[1..]| && ParseLine(lines[1..][k]).Some? && ParseLine(lines[1..][k]).value.0 == key {
        var k :| 0 <= k < |lines[1..]| && ParseLine(lines[1..][k]).Some? && ParseLine(lines[1..][k]).value.0 == key;
        assert lines[k + 1] == lines[1..][k];
      }
    }
  }

  /** Where the front matter ends: "\n---\n" searched from index 4, else
      "\n---". */
  function ClosingMarker(input: string): (r: Option<nat>)
    ensures r.Some? ==> 4 <= r.value && r.value + 4 <= |input|
  {
    match Find(input, "\n---\n", 4)
    case Some(e) => Some(e)
    case None => Find(input, "\n---", 4)
  }

  /** What FrontmatterParser::parse returns. */
  function Frontmatter(input: string): FrontmatterResult
  {
    if !StartsWith(input, "---") then FrontmatterResult(map[], input)
    else match ClosingMarker(input)
      case None => FrontmatterResult(map[], input)
      case Some(e) =>
        var lines := TrimAll(Pieces(input[4..e], '\n'));
        var content := if e + 4 < |input| then Trim(input[e + 4..]) else "";
        FrontmatterResult(ApplyLines(map[], lines), content)
  }

  /** The line loop of FrontmatterParser::parse. */
  method CollectMetadata(lines: seq<string>) returns (metadata: map<string, string>)
    ensures metadata == ApplyLines(map[], lines)
  {
    metadata := map[];
    var i := 0;
    while i < |lines|
      invariant 0 <= i <= |lines|
      invariant ApplyLines(metadata, lines[i..]) == ApplyLines(map[], lines)
    {
      var line := lines[i];
      ghost var before := metadata;
      if line != [] && FindChar(line, ':', 0).Some? {
        var kv := ParseLine(line);
        metadata := metadata[kv.value.0 := kv.value.1];
      }
      assert metadata == ApplyLine(before, line);
      assert lines[i..] == [line] + lines[i + 1..];
      i := i + 1;
    }
    assert lines[i..] == [];
  }

  /** FrontmatterParser::parse. */
  method ParseFrontmatter(input: string) returns (result: FrontmatterResult)
    ensures result == Frontmatter(input)
    ensures !StartsWith(input, "---") || ClosingMarker(input).None? ==> result == FrontmatterResult(map[], input)
  {
    result := FrontmatterResult(map[], input);
    if !StartsWith(input, "---") {
      return;
    }
    var endPos := Find(input, "\n---\n", 4);
    if endPos.None? {
      endPos := Find(input, "\n---", 4);
      if endPos.None? {
        return;
      }
    }
    var e := endPos.value;
    assert ClosingMarker(input) == Some(e);
    var frontmatter := input[4..e];
    var lines := Split(frontmatter, '\n');
    var metadata := CollectMetadata(lines);
    var content := "";
    if e + 4 < |input| {
      content := Trim(input[e + 4..]);
    }
    result := FrontmatterResult(metadata, content);
  }

  /** A front-matter line "key: value" gives back that key and value when
      both are already trimmed, the key holds no ':' and the value is not
      wrapped in quotes. */
  lemma ParseLineRoundTrip(key: string, value: string)
    requires ':' !in key && Unpadded(key) && Unpadded(value)
    requires !(StartsWith(value, "\"") && EndsWith(value, "\""))
    ensures ParseLine(key + ": " + value) == Some((key, value))
  {
    var line := key + ": " + value;
    KeyValueLine(key, value, line);
    TrimUnchanged(key);
    TrimSpacePrefix(value);
  }

  /** The first ':' of "key: value" follows the key. */
  lemma KeyValueLine(key: string, value: string, line: string)
    requires ':' !in key && line == key + ": " + value
    ensures FindChar(line, ':', 0) == Some(|key|)
    ensures line[..|key|] == key && line[|key| + 1..] == " " + value
  {
    assert forall m :: 0 <= m < |key| ==> line[m] == key[m];
    FindCharFirst(line, ':', 0, |key|);
  }

  lemma TrimSpacePrefix(v: string)
    requires Unpadded(v)
    ensures Trim(" " + v) == v
  {
    var t := " " + v;
    if v == [] {
      assert AllIn(t, TrimSpace);
    } else {
      assert t[1..] == v;
      assert FirstNotIn(t, TrimSpace) == 1;
      assert t[|t| - 1] == v[|v| - 1];
      assert EndNotIn(t, TrimSpace) == |t|;
      assert t[1..|t|] == v;
    }
  }

  // ---------------------------------------------------------------------
  // path_to_route

  /** std::replace(route, '\\', '/'). */
  function ReplaceBackslashes(s: string): (r: string)
    ensures |r| == |s| && '\\' !in r
    ensures forall k :: 0 <= k < |s| ==> r[k] == (if s[k] == '\\' then '/' else s[k])
  {
    if s == [] then [] else [if s[0] == '\\' then '/' else s[0]] + ReplaceBackslashes(s[1..])
  }

  /** FileUtils::path_to_route, given the path relative to the content
      directory. */
  function PathToRoute(relative: string): (route: string)
    ensures route != [] && route[0] == '/' && '\\' !in route
  {
    var r0 := "/" + relative;
    assert r0[0] == '/';
    assert EndsWith(r0, ".md") ==> r0[|r0| - 3 + 0] == '.';
    var r1 := if EndsWith(r0, ".md") then r0[..|r0| - 3] else r0;
    assert r1 != [] && r1[0] == '/';
    var r2 := if EndsWith(r1, "/index") then (if |r1| == 6 then "/" else r1[..|r1| - 6]) else r1;
    assert r2 != [] && r2[0] == '/';
    ReplaceBackslashes(r2)
  }

  /** A page p.md is served at /p. */
  lemma PathToRoutePage(page: string)
    requires '\\' !in page && page != []
    requires !EndsWith("/" + page, "/index")
    ensures PathToRoute(page + ".md") == "/" + page
  {
    var r0 := "/" + (page + ".md");
    assert r0 == ("/" + page) + ".md";
    assert EndsWith(r0, ".md");
    assert r0[..|r0| - 3] == "/" + page;
    NoBackslashIdentity("/" + page);
  }

  /** The top-level index.md is served at "/". */
  lemma PathToRouteRootIndex()
    ensures PathToRoute("index.md") == "/"
  {
    var r0 := "/" + "index.md";
    assert r0 == "/index.md";
    assert EndsWith(r0, ".md");
    assert r0[..|r0| - 3] == "/index";
    assert EndsWith("/index", "/index");
    NoBackslashIdentity("/");
  }

  /** A directory's index.md is served at the directory. */
  lemma PathToRouteDirIndex(dir: string)
    requires '\\' !in dir && dir != []
    ensures PathToRoute(dir + "/index.md") == "/" + dir
  {
    var r0 := "/" + (dir + "/index.md");
    var r1 := "/" + dir + "/index";
    assert r0 == r1 + ".md";
    assert EndsWith(r0, ".md");
    assert r0[..|r0| - 3] == r1;
    assert r1 == ("/" + dir) + "/index";
    assert EndsWith(r1, "/index");
    assert r1[..|r1| - 6] == "/" + dir;
    NoBackslashIdentity("/" + dir);
  }

  lemma NoBackslashIdentity(s: string)
    requires '\\' !in s
    ensures ReplaceBackslashes(s) == s
  {
  }
}
