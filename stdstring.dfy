/** The parts of the C++ standard library string interface the sources rely
    on: std::string::find, std::to_string on non-negative integers, and the
    strtol family behind std::stoi, std::stoul and std::stoull. */
module StdString {
  import opened Wrappers
  import opened Chars

  /** pat occurs in s at index i. */
  predicate OccursAt(s: string, pat: string, i: nat) {
    i + |pat| <= |s| && forall k :: 0 <= k < |pat| ==> s[i + k] == pat[k]
  }

  /** s holds t at p. */
  predicate At(s: string, p: nat, t: string) {
    p + |t| <= |s| && s[p..p + |t|] == t
  }

  lemma AtSplit(s: string, p: nat, a: string, b: string)
    requires At(s, p, a + b)
    ensures At(s, p, a) && At(s, p + |a|, b)
  {
    assert s[p..p + |a|] == s[p..p + |a + b|][..|a|];
    assert s[p + |a|..p + |a| + |b|] == s[p..p + |a + b|][|a|..];
  }

  lemma AtChar(s: string, p: nat, t: string, k: nat)
    requires At(s, p, t) && k < |t|
    ensures s[p + k] == t[k]
  {
    assert s[p..p + |t|][k] == s[p + k];
  }

  lemma AtSlice(s: string, p: nat, t: string, a: nat, b: nat)
    requires At(s, p, t) && a <= b <= |t|
    ensures At(s, p + a, t[a..b])
  {
    var w := s[p..p + |t|];
    assert forall k :: 0 <= k < b - a ==> s[p + a..p + b][k] == w[a..b][k];
  }

  /** std::string::find(pat, from): the least index i >= from at which pat
      occurs, or None (npos). */
  function Find(s: string, pat: string, lo: nat): (r: Option<nat>)
    ensures r.Some? ==> lo <= r.value && OccursAt(s, pat, r.value)
    decreases |s| - lo
  {
    if lo + |pat| > |s| then None
    else if OccursAt(s, pat, lo) then Some(lo)
    else Find(s, pat, lo + 1)
  }

  /** find returns the first occurrence: there is none between lo and the
      index it returns, and none at all from lo when it returns npos. */
  lemma {:induction false} FindLeast(s: string, pat: string, lo: nat)
    ensures Find(s, pat, lo).Some? ==> forall k :: lo <= k < Find(s, pat, lo).value ==> !OccursAt(s, pat, k)
    ensures Find(s, pat, lo).None? ==> forall k :: lo <= k ==> !OccursAt(s, pat, k)
    decreases |s| - lo
  {
    if lo + |pat| <= |s| && !OccursAt(s, pat, lo) {
      FindLeast(s, pat, lo + 1);
    }
  }

  /** pat occurs somewhere in s (find(pat) != npos). */
  predicate Contains(s: string, pat: string) { Find(s, pat, 0).Some? }

  /** std::string::find(c, from) for a single char. */
  function FindChar(s: string, c: char, lo: nat): (r: Option<nat>)
    ensures r.Some? ==> lo <= r.value < |s| && s[r.value] == c
    ensures r.Some? ==> forall k :: lo <= k < r.value ==> s[k] != c
    ensures r.None? ==> forall k :: lo <= k < |s| ==> s[k] != c
    decreases |s| - lo
  {
    if lo >= |s| then None
    else if s[lo] == c then Some(lo)
    else FindChar(s, c, lo + 1)
  }

  /** The first occurrence at or after lo is what FindChar finds. */
  lemma FindCharFirst(s: string, c: char, lo: nat, k: nat)
    requires lo <= k < |s| && s[k] == c && forall m :: lo <= m < k ==> s[m] != c
    ensures FindChar(s, c, lo) == Some(k)
  {
  }

  lemma FindCharNone(s: string, c: char, lo: nat)
    requires forall m :: lo <= m < |s| ==> s[m] != c
    ensures FindChar(s, c, lo) == None
  {
  }

  /** The char search is the string search for a one-char pattern. */
  lemma FindCharIsFind(s: string, c: char, lo: nat)
    ensures FindChar(s, c, lo) == Find(s, [c], lo)
    decreases |s| - lo
  {
    if lo < |s| {
      assert OccursAt(s, [c], lo) ==> s[lo + 0] == [c][0];
      assert s[lo] == c ==> OccursAt(s, [c], lo);
      FindCharIsFind(s, c, lo + 1);
    }
  }

  /** std::string::substr(pos, n): at most n chars from pos. */
  function Substr(s: string, pos: nat, n: nat): (r: string)
    requires pos <= |s|
    ensures |r| == if pos + n <= |s| then n else |s| - pos
    ensures forall k :: 0 <= k < |r| ==> r[k] == s[pos + k]
  {
    if pos + n <= |s| then s[pos..pos + n] else s[pos..]
  }

  /** t begins with p. */
  predicate HasPrefix(t: string, p: string) { |p| <= |t| && t[..|p|] == p }

  lemma PrefixChar(t: string, p: string, k: nat)
    requires k < |p| && HasPrefix(t, p)
    ensures t[k] == p[k]
  {
    assert t[..|p|][k] == t[k];
  }

  /** substr(pos, |pat|) == pat exactly when s[pos..] begins with pat. */
  lemma SubstrIsPrefix(s: string, pos: nat, pat: string)
    requires pos <= |s|
    ensures Substr(s, pos, |pat|) == pat <==> HasPrefix(s[pos..], pat)
  {
  }

  /** The first index at or after lo holding a char of stops, or |s| when
      there is none: where a scanning loop of the form
      `while (pos < s.length() && s[pos] != c1 && ...) ++pos;` stops. */
  function ScanUntil(s: string, lo: nat, stops: set<char>): (i: nat)
    requires lo <= |s|
    ensures lo <= i <= |s|
    ensures forall k :: lo <= k < i ==> s[k] !in stops
    ensures i < |s| ==> s[i] in stops
    decreases |s| - lo
  {
    if lo < |s| && s[lo] !in stops then ScanUntil(s, lo + 1, stops) else lo
  }

  /** A scanning loop that stops at the first stop char ends where
      ScanUntil says. */
  lemma {:induction false} ScanUntilAt(s: string, lo: nat, i: nat, stops: set<char>)
    requires lo <= i <= |s|
    requires forall k :: lo <= k < i ==> s[k] !in stops
    requires i < |s| ==> s[i] in stops
    ensures ScanUntil(s, lo, stops) == i
    decreases i - lo
  {
    if lo < i {
      ScanUntilAt(s, lo + 1, i, stops);
    }
  }

  // ---------------------------------------------------------------------
  // std::to_string for non-negative values

  function DigitChar(d: nat): (c: char)
    requires d < 10
    ensures IsDigit(c) && DigitValue(c) == d
  {
    ('0' as int + d) as char
  }

  /** The decimal numeral std::to_string prints for n >= 0. */
  function NatToString(n: nat): (r: string)
    ensures |r| >= 1
    ensures forall i :: 0 <= i < |r| ==> IsDigit(r[i])
    ensures n > 0 ==> r[0] != '0'
    ensures n == 0 ==> r == "0"
    decreases n
  {
    if n < 10 then [DigitChar(n)] else NatToString(n / 10) + [DigitChar(n % 10)]
  }

  /** The value of a string of decimal digits. */
  function DecimalValue(s: string): nat
    requires forall i :: 0 <= i < |s| ==> IsDigit(s[i])
  {
    if s == [] then 0 else DecimalValue(s[..|s| - 1]) * 10 + DigitValue(s[|s| - 1])
  }

  /** Reading back what std::to_string printed gives the number again. */
  lemma {:induction false} NatToStringValue(n: nat)
    ensures DecimalValue(NatToString(n)) == n
    decreases n
  {
    if n >= 10 {
      NatToStringValue(n / 10);
      var s := NatToString(n);
      assert s[..|s| - 1] == NatToString(n / 10);
    }
  }

  // ---------------------------------------------------------------------
  // strtol / strtoul / strtoull, on which std::stoi / stoul / stoull rest

  predicate IsDigitIn(c: char, base: nat) {
    if base == 16 then IsHexDigit(c) else IsDigit(c)
  }

  function DigitIn(c: char, base: nat): (v: nat)
    requires IsDigitIn(c, base)
    ensures v < (if base == 16 then 16 else 10)
  {
    if base == 16 then HexValue(c) else DigitValue(c)
  }

  /** Length of the longest prefix of s[lo..] made of digits of the base. */
  function DigitRun(s: string, lo: nat, base: nat): (n: nat)
    requires lo <= |s|
    ensures lo + n <= |s|
    ensures forall k :: lo <= k < lo + n ==> IsDigitIn(s[k], base)
    ensures lo + n < |s| ==> !IsDigitIn(s[lo + n], base)
    decreases |s| - lo
  {
    if lo < |s| && IsDigitIn(s[lo], base) then 1 + DigitRun(s, lo + 1, base) else 0
  }

  /** The value of the digits s[lo..hi] in the given base. */
  function RunValue(s: string, lo: nat, hi: nat, base: nat): nat
    requires lo <= hi <= |s|
    requires forall k :: lo <= k < hi ==> IsDigitIn(s[k], base)
    decreases hi - lo
  {
    if hi == lo then 0
    else RunValue(s, lo, hi - 1, base) * (if base == 16 then 16 else 10) + DigitIn(s[hi - 1], base)
  }

  /** Index of the first char of s[lo..] that is not white space. */
  function SkipSpace(s: string, lo: nat): (i: nat)
    requires lo <= |s|
    ensures lo <= i <= |s|
    ensures i < |s| ==> !IsSpace(s[i])
    decreases |s| - lo
  {
    if lo < |s| && IsSpace(s[lo]) then SkipSpace(s, lo + 1) else lo
  }

  /** Everything SkipSpace passes over is white space. */
  lemma {:induction false} SkipSpaceSkips(s: string, lo: nat)
    requires lo <= |s|
    ensures forall k :: lo <= k < SkipSpace(s, lo) ==> IsSpace(s[k])
    decreases |s| - lo
  {
    if lo < |s| && IsSpace(s[lo]) {
      SkipSpaceSkips(s, lo + 1);
    }
  }

  /** SkipSpace stops at the first char that is not white space. */
  lemma {:induction false} SkipSpaceTo(s: string, lo: nat, i: nat)
    requires lo <= i <= |s|
    requires forall k :: lo <= k < i ==> IsSpace(s[k])
    requires i < |s| ==> !IsSpace(s[i])
    ensures SkipSpace(s, lo) == i
    decreases i - lo
  {
    if lo < i {
      SkipSpaceTo(s, lo + 1, i);
    }
  }

  /** What strtol-style conversion reads from the start of s: leading white
      space, an optional sign, for base 16 an optional 0x/0X in front of a hex
      digit, then the longest run of digits.  None when there is no digit
      (std::invalid_argument).  The result is the sign and the magnitude. */
  function ScanInteger(s: string, base: nat): (r: Option<(bool, nat)>)
  {
    var i := SkipSpace(s, 0);
    var neg := i < |s| && s[i] == '-';
    var j := if i < |s| && (s[i] == '-' || s[i] == '+') then i + 1 else i;
    var k := if base == 16 && j + 2 < |s| && s[j] == '0' && (s[j + 1] == 'x' || s[j + 1] == 'X')
                && IsHexDigit(s[j + 2]) then j + 2 else j;
    var n := DigitRun(s, k, base);
    if n == 0 then None else Some((neg, RunValue(s, k, k + n, base)))
  }

  const INT_MIN: int := -0x8000_0000
  const INT_MAX: int := 0x7FFF_FFFF
  const ULONG_LIMIT: nat := 0x1_0000_0000_0000_0000

  /** std::stoi on a 32-bit int, decimal; None for both std::invalid_argument
      and std::out_of_range. */
  function Stoi(s: string): (r: Option<int>)
    ensures r.Some? ==> INT_MIN <= r.value <= INT_MAX
  {
    match ScanInteger(s, 10)
    case None => None
    case Some((neg, mag)) =>
      var v: int := if neg then -(mag as int) else mag;
      if INT_MIN <= v <= INT_MAX then Some(v) else None
  }

  /** std::stoul / std::stoull with a 64-bit unsigned long: a magnitude above
      the range is std::out_of_range; a '-' sign negates in unsigned
      arithmetic. */
  function Stoul(s: string, base: nat): (r: Option<nat>)
    ensures r.Some? ==> r.value < ULONG_LIMIT
  {
    match ScanInteger(s, base)
    case None => None
    case Some((neg, mag)) =>
      if mag >= ULONG_LIMIT then None
      else if neg then Some((ULONG_LIMIT - mag) % ULONG_LIMIT) else Some(mag)
  }

  /** A plain decimal numeral, as std::to_string prints it, reads back as
      its value with std::stoi. */
  lemma StoiOfNatToString(n: nat)
    requires n <= INT_MAX
    ensures Stoi(NatToString(n)) == Some(n)
  {
    var s := NatToString(n);
    assert SkipSpace(s, 0) == 0;
    DigitRunAll(s, 0, 10);
    RunValueIsDecimal(s, |s|);
    NatToStringValue(n);
    assert s[..|s|] == s;
  }

  lemma {:induction false} DigitRunAll(s: string, lo: nat, base: nat)
    requires base == 10 && lo <= |s|
    requires forall k :: lo <= k < |s| ==> IsDigit(s[k])
    ensures DigitRun(s, lo, base) == |s| - lo
    decreases |s| - lo
  {
    if lo < |s| { DigitRunAll(s, lo + 1, base); }
  }

  lemma {:induction false} RunValueIsDecimal(s: string, hi: nat)
    requires hi <= |s|
    requires forall k :: 0 <= k < |s| ==> IsDigit(s[k])
    ensures RunValue(s, 0, hi, 10) == DecimalValue(s[..hi])
    decreases hi
  {
    if hi > 0 {
      RunValueIsDecimal(s, hi - 1);
      assert s[..hi][..hi - 1] == s[..hi - 1];
    }
  }

  // ---------------------------------------------------------------------
  // Slices of a concatenation, each proved in a context of its own

  /** White space skipped in b after a: where it stops in b, shifted. */
  lemma SkipSpaceAfter(a: string, b: string)
    ensures SkipSpace(a + b, |a|) == |a| + SkipSpace(b, 0)
  {
    var s := SkipSpace(b, 0);
    var t := a + b;
    SkipSpaceSkips(b, 0);
    forall k | |a| <= k < |a| + s
      ensures IsSpace(t[k])
    {
      assert t[k] == b[k - |a|];
    }
    assert |a| + s < |t| ==> t[|a| + s] == b[s];
    SkipSpaceTo(t, |a|, |a| + s);
  }

  lemma TakeAppend<T>(a: seq<T>, b: seq<T>, i: nat)
    requires i <= |a|
    ensures (a + b)[..i] == a[..i]
  {
  }

  lemma DropAppend<T>(a: seq<T>, b: seq<T>, i: nat)
    requires i <= |a|
    ensures (a + b)[i..] == a[i..] + b
  {
  }

  lemma TakeSnoc<T>(s: seq<T>, i: nat)
    requires i < |s|
    ensures s[..i + 1] == s[..i] + [s[i]]
  {
  }

  lemma SeqAssoc<T>(a: seq<T>, b: seq<T>, c: seq<T>)
    ensures (a + b) + c == a + (b + c)
  {
  }
}
