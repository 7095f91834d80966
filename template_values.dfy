/** What the template engine promises about values, dotted lookup, helper
    arguments and the built-in helpers of parsers/template/template_engine.cpp:
    split_path keeps the non-empty pieces between dots and undoes a join
    on ".", a dotted name descends one object per piece, the arguments of
    a helper call are its words in order, and the built-ins compute the
    text their names promise. */
module TemplateValues {
  import opened Wrappers
  import opened StdString
  import Chars
  import FileUtils
  import opened Template
  import TemplateProperties

  // ---------------------------------------------------------------------
  // Truthiness and printing

  /** is_truthy and to_string agree on strings and booleans: a string is
      truthy exactly when it prints as something, a boolean exactly when it
      prints "true"; the default value is falsy and prints nothing. */
  lemma TruthyShown(v: Value)
    ensures v.Str? ==> (Truthy(v) <==> ToString(v) != "")
    ensures v.Bool? ==> (Truthy(v) <==> ToString(v) == "true")
    ensures v == Default ==> !Truthy(v) && ToString(v) == ""
  {
  }

  // ---------------------------------------------------------------------
  // split_path

  /** Parts as split_path returns them: none empty, none holding a dot. */
  predicate CleanParts(ps: seq<string>) {
    forall i :: 0 <= i < |ps| ==> ps[i] != [] && '.' !in ps[i]
  }

  lemma {:induction false} ScanClean(s: string)
    ensures CleanParts(Scan(s).parts) && '.' !in Scan(s).current
    decreases |s|
  {
    if s != [] {
      ScanClean(s[..|s| - 1]);
    }
  }

  /** split_path never returns an empty piece or one holding a dot. */
  lemma PathPartsClean(path: string)
    ensures CleanParts(PathParts(path))
  {
    ScanClean(path);
  }

  /** One more char: a dot completes the part being read, any other char
      extends it. */
  lemma ScanSnoc(s: string, c: char)
    ensures Scan(s + [c]) == if c == '.' then Split(Flush(Scan(s)), "") else Split(Scan(s).parts, Scan(s).current + [c])
  {
    assert (s + [c])[..|s|] == s;
  }

  /** Reading text without dots only extends the part being read. */
  lemma {:induction false} ScanAppend(a: string, b: string)
    requires '.' !in b
    ensures Scan(a + b) == Split(Scan(a).parts, Scan(a).current + b)
    decreases |b|
  {
    if b == [] {
      assert a + b == a;
    } else {
      var c := b[..|b| - 1];
      var x := b[|b| - 1];
      assert b == c + [x];
      assert '.' !in c && x != '.';
      ScanAppend(a, c);
      assert a + b == (a + c) + [x];
      ScanSnoc(a + c, x);
      assert Scan(a).current + c + [x] == Scan(a).current + b;
    }
  }

  /** A dot completes the part being read. */
  lemma ScanDot(a: string)
    ensures Scan(a + ".") == Split(Flush(Scan(a)), "")
  {
    assert (a + ".")[..|a|] == a;
  }

  /** A name without dots is one part, or none when empty. */
  lemma PathPartsName(name: string)
    requires '.' !in name
    ensures PathParts(name) == if name == [] then [] else [name]
  {
    ScanAppend([], name);
    assert [] + name == name;
  }

  /** split_path undoes a join on "." of clean parts. */
  lemma {:induction false} ScanJoin(ps: seq<string>)
    requires ps != [] && CleanParts(ps)
    ensures Scan(FileUtils.JoinSpec(ps, ".")) == Split(ps[..|ps| - 1], ps[|ps| - 1])
    decreases |ps|
  {
    if |ps| == 1 {
      ScanAppend([], ps[0]);
      assert [] + ps[0] == ps[0];
    } else {
      var init := ps[..|ps| - 1];
      var last := ps[|ps| - 1];
      var x := FileUtils.JoinSpec(init, ".");
      assert CleanParts(init) by {
        forall i | 0 <= i < |init| ensures init[i] != [] && '.' !in init[i] {
          assert init[i] == ps[i];
        }
      }
      ScanJoin(init);
      ScanDot(x);
      assert init[..|init| - 1] + [init[|init| - 1]] == init;
      ScanAppend(x + ".", last);
      assert "" + last == last;
    }
  }

  /** split_path(join(parts, ".")) == parts for parts split_path could
      have returned. */
  lemma PathPartsJoin(ps: seq<string>)
    requires CleanParts(ps)
    ensures PathParts(FileUtils.JoinSpec(ps, ".")) == ps
  {
    if ps != [] {
      ScanJoin(ps);
      assert ps[..|ps| - 1] + [ps[|ps| - 1]] == ps;
    }
  }

  // ---------------------------------------------------------------------
  // Lookup

  /** Descending along p and then q is descending along p + q. */
  lemma {:induction false} NestedAppend(v: Value, p: seq<string>, q: seq<string>)
    ensures Nested(v, p + q) == Nested(Nested(v, p), q)
    decreases |p|
  {
    if p == [] {
      assert p + q == q;
    } else if !v.Obj? || p[0] !in v.fields {
      assert (p + q)[0] == p[0];
    } else if |p| == 1 {
      assert (p + q)[0] == p[0];
      assert (p + q)[1..] == q;
    } else {
      assert (p + q)[0] == p[0];
      assert (p + q)[1..] == p[1..] + q;
      NestedAppend(v.fields[p[0]], p[1..], q);
    }
  }

  /** resolve_variable is the nested lookup of the name's parts in the
      context: one level per part, "" as soon as a key is missing. */
  lemma ResolvePath(ctx: map<string, Value>, name: string)
    requires PathParts(name) != []
    ensures Resolve(ctx, name) == Nested(Obj(ctx), PathParts(name))
  {
    if '.' !in name {
      PathPartsName(name);
    }
  }

  /** A non-empty name whose first part is not in the context (or that
      has no part at all) resolves to the default value: falsy, and
      printed as "". */
  lemma MissingFalsy(ctx: map<string, Value>, name: string)
    requires name != []
    requires PathParts(name) == [] || PathParts(name)[0] !in ctx
    ensures Resolve(ctx, name) == Default
    ensures !Truthy(Resolve(ctx, name)) && ToString(Resolve(ctx, name)) == ""
  {
    if '.' !in name {
      PathPartsName(name);
    }
  }

  /** A name split_path leaves whole, and a dotted one, resolve to the
      value stored for them. */
  lemma ResolveJoin(ctx: map<string, Value>, ps: seq<string>)
    requires ps != [] && CleanParts(ps)
    ensures Resolve(ctx, FileUtils.JoinSpec(ps, ".")) == Nested(Obj(ctx), ps)
  {
    PathPartsJoin(ps);
    ResolvePath(ctx, FileUtils.JoinSpec(ps, "."));
  }

  /** Looking up "a.b" is looking up b in what a resolves to. */
  lemma ResolveStep(ctx: map<string, Value>, a: seq<string>, b: seq<string>)
    requires a != [] && b != [] && CleanParts(a) && CleanParts(b)
    ensures Resolve(ctx, FileUtils.JoinSpec(a + b, ".")) == Nested(Resolve(ctx, FileUtils.JoinSpec(a, ".")), b)
  {
    assert CleanParts(a + b) by {
      forall i | 0 <= i < |a + b| ensures (a + b)[i] != [] && '.' !in (a + b)[i] {
        if i < |a| { assert (a + b)[i] == a[i]; } else { assert (a + b)[i] == b[i - |a|]; }
      }
    }
    ResolveJoin(ctx, a + b);
    ResolveJoin(ctx, a);
    NestedAppend(Obj(ctx), a, b);
  }

  // ---------------------------------------------------------------------
  // extract_until

  /** pat does not occur anywhere in s[lo..hi]. */
  predicate Absent(s: string, pat: string, lo: nat, hi: nat) {
    forall k :: lo <= k < hi ==> !OccursAt(s, pat, k)
  }

  /** extract_until stops at the first end pattern: none occurs in the
      text it returns, and the cursor moves past the pattern, or to the
      end when there is none. */
  lemma UntilFirst(s: string, i: nat, pat: string)
    requires i <= |s|
    ensures Absent(s, pat, i, UntilEnd(s, i, pat))
    ensures UntilEnd(s, i, pat) == |s| ==> UntilNext(s, i, pat) == |s|
    ensures UntilEnd(s, i, pat) < |s| ==> OccursAt(s, pat, UntilEnd(s, i, pat)) && UntilNext(s, i, pat) == UntilEnd(s, i, pat) + |pat|
  {
    FindLeast(s, pat, i);
  }

  // ---------------------------------------------------------------------
  // Helper arguments

  /** A word `ss >> arg` reads whole: non-empty, with no white space. */
  predicate IsWord(w: string) {
    w != [] && forall k :: 0 <= k < |w| ==> !Chars.IsSpace(w[k])
  }

  /** Every one of ws is a word. */
  predicate AllWords(ws: seq<string>) {
    forall k :: 0 <= k < |ws| ==> ws[k] != [] && forall j :: 0 <= j < |ws[k]| ==> !Chars.IsSpace(ws[k][j])
  }

  /** Words joined by single spaces. */
  function Words(ws: seq<string>): (s: string)
    ensures ws == [] ==> s == ""
    decreases |ws|
  {
    if ws == [] then "" else if |ws| == 1 then ws[0] else ws[0] + " " + Words(ws[1..])
  }

  /** The value of each word, in order. */
  function ArgumentsOf(ctx: map<string, Value>, ws: seq<string>): (r: seq<Value>)
    requires AllWords(ws)
    ensures |r| == |ws| && forall k :: 0 <= k < |ws| ==> r[k] == Argument(ctx, ws[k])
    decreases |ws|
  {
    if ws == [] then [] else [Argument(ctx, ws[0])] + ArgumentsOf(ctx, ws[1..])
  }

  lemma {:induction false} WordEndRun(s: string, i: nat, e: nat)
    requires i <= e <= |s|
    requires forall k :: i <= k < e ==> !Chars.IsSpace(s[k])
    requires e == |s| || Chars.IsSpace(s[e])
    ensures WordEnd(s, i) == e
    decreases e - i
  {
    if i < e {
      WordEndRun(s, i + 1, e);
    }
  }

  /** A word at i followed by the end or a space is read whole. */
  lemma WordAt(s: string, i: nat, w: string)
    requires IsWord(w) && At(s, i, w)
    requires i + |w| == |s| || Chars.IsSpace(s[i + |w|])
    ensures SkipSpace(s, i) == i && WordEnd(s, i) == i + |w| && s[i..WordEnd(s, i)] == w
  {
    AtChar(s, i, w, 0);
    forall k | i <= k < i + |w| ensures !Chars.IsSpace(s[k]) {
      AtChar(s, i, w, k - i);
    }
    WordEndRun(s, i, i + |w|);
  }

  /** Where the first of several joined words, the space after it and
      the rest sit. */
  lemma WordsSplit(s: string, i: nat, e: nat, ws: seq<string>)
    requires |ws| > 1 && AllWords(ws) && e == i + |ws[0]|
    requires i + |Words(ws)| == |s| && At(s, i, Words(ws))
    ensures SkipSpace(s, i) == i && WordEnd(s, i) == e && s[i..e] == ws[0]
    ensures e < |s| && Chars.IsSpace(s[e]) && SkipSpace(s, e + 1) == e + 1
    ensures AllWords(ws[1..]) && e + 1 + |Words(ws[1..])| == |s| && At(s, e + 1, Words(ws[1..]))
  {
    var rest := Words(ws[1..]);
    TemplateProperties.Split3(s, i, ws[0], " ", rest);
    AtChar(s, e, " ", 0);
    WordAt(s, i, ws[0]);
    assert AllWords(ws[1..]) by {
      forall k | 0 <= k < |ws[1..]| ensures ws[1..][k] == ws[k + 1] { }
    }
    WordsHead(ws[1..]);
    AtChar(s, e + 1, rest, 0);
  }

  /** Past a word and one space, the arguments go on with the next
      word. */
  lemma ArgumentsStep(ctx: map<string, Value>, s: string, i: nat, e: nat, w: string)
    requires w != [] && i < e < |s| && SkipSpace(s, i) == i && WordEnd(s, i) == e && s[i..e] == w
    requires Chars.IsSpace(s[e]) && SkipSpace(s, e + 1) == e + 1
    ensures Arguments(ctx, s, i) == [Argument(ctx, w)] + Arguments(ctx, s, e + 1)
  {
    assert SkipSpace(s, e) == e + 1;
  }

  /** A last word is the last argument. */
  lemma WordLast(ctx: map<string, Value>, s: string, i: nat, w: string)
    requires w != [] && forall j :: 0 <= j < |w| ==> !Chars.IsSpace(w[j])
    requires i + |w| == |s| && At(s, i, w)
    ensures Arguments(ctx, s, i) == [Argument(ctx, w)]
  {
    WordAt(s, i, w);
    assert SkipSpace(s, |s|) == |s|;
  }

  /** The arguments read from the words at i: one value per word. */
  lemma {:induction false} ArgumentsAt(ctx: map<string, Value>, s: string, i: nat, ws: seq<string>)
    requires AllWords(ws)
    requires i + |Words(ws)| == |s| && At(s, i, Words(ws))
    ensures Arguments(ctx, s, i) == ArgumentsOf(ctx, ws)
    decreases |ws|
  {
    if ws == [] {
    } else if |ws| == 1 {
      WordLast(ctx, s, i, ws[0]);
      assert ArgumentsOf(ctx, ws) == [Argument(ctx, ws[0])] + ArgumentsOf(ctx, ws[1..]);
    } else {
      var e := i + |ws[0]|;
      WordsSplit(s, i, e, ws);
      ArgumentsStep(ctx, s, i, e, ws[0]);
      ArgumentsAt(ctx, s, e + 1, ws[1..]);
    }
  }

  /** Joined words start with a non-space. */
  lemma WordsHead(ws: seq<string>)
    requires ws != [] && AllWords(ws)
    ensures Words(ws) != [] && !Chars.IsSpace(Words(ws)[0])
  {
    if |ws| > 1 {
      assert Words(ws)[0] == ws[0][0];
    }
  }

  /** A helper call's arguments are its words, in order: each a literal
      when quoted, a variable otherwise. */
  lemma ArgumentsWords(ctx: map<string, Value>, ws: seq<string>)
    requires AllWords(ws)
    ensures Arguments(ctx, Words(ws), 0) == ArgumentsOf(ctx, ws)
  {
    ArgumentsAt(ctx, Words(ws), 0, ws);
  }

  /** A quoted word is the text between its quotes; any other word is
      looked up. */
  lemma ArgumentKinds(ctx: map<string, Value>, lit: string, name: string)
    requires name != [] && name[0] != '"' && name[0] != '\''
    ensures Argument(ctx, "\"" + lit + "\"") == Str(lit)
    ensures Argument(ctx, "'" + lit + "'") == Str(lit)
    ensures Argument(ctx, name) == Resolve(ctx, name)
  {
    assert ("\"" + lit + "\"")[1..|lit| + 1] == lit;
    assert ("'" + lit + "'")[1..|lit| + 1] == lit;
  }

  // ---------------------------------------------------------------------
  // Built-in helpers

  /** join with no separator uses ", ", with one uses its text, and joins
      nothing for a non-array. */
  lemma JoinStrings(xs: seq<string>, sep: string, v: Value, rest: seq<Value>)
    requires !v.Arr?
    ensures Call(Join, [FromStrings(xs)]) == Ok(FileUtils.JoinSpec(xs, ", "))
    ensures Call(Join, [FromStrings(xs), Str(sep)]) == Ok(FileUtils.JoinSpec(xs, sep))
    ensures Call(Join, [v] + rest) == Ok("")
  {
    assert Strings(FromStrings(xs).items) == xs;
  }

  /** length counts the chars of a string, the items of an array and the
      keys of an object; anything else has length 0. */
  lemma LengthCounts(s: string, items: seq<Value>, fields: map<string, Value>, b: bool, d: string)
    ensures Call(Length, [Str(s)]) == Ok(NatToString(|s|))
    ensures Call(Length, [Arr(items)]) == Ok(NatToString(|items|))
    ensures Call(Length, [Obj(fields)]) == Ok(NatToString(|fields|))
    ensures Call(Length, [Bool(b)]) == Ok("0") && Call(Length, [Date(d)]) == Ok("0") && Call(Length, []) == Ok("0")
  {
    LengthOfString(s);
    LengthOfArray(items);
    LengthOfObject(fields);
    LengthOfOther(b, d);
  }

  lemma LengthOfString(s: string)
    ensures Call(Length, [Str(s)]) == Ok(NatToString(|s|))
  {
  }

  lemma LengthOfArray(items: seq<Value>)
    ensures Call(Length, [Arr(items)]) == Ok(NatToString(|items|))
  {
  }

  lemma LengthOfObject(fields: map<string, Value>)
    ensures Call(Length, [Obj(fields)]) == Ok(NatToString(|fields|))
  {
  }

  lemma LengthOfOther(b: bool, d: string)
    ensures Call(Length, [Bool(b)]) == Ok("0") && Call(Length, [Date(d)]) == Ok("0") && Call(Length, []) == Ok("0")
  {
  }

  /** A variable name is one word that is not quoted and holds no
      braces. */
  lemma NameWord(name: string)
    requires TemplateProperties.IsName(name)
    ensures TemplateProperties.BraceFree(name) && !Chars.IsSpace(name[0])
    ensures name[0] != '"' && name[0] != '\''
    ensures AllWords([name]) && Words([name]) == name
  {
    forall k | 0 <= k < |name| ensures name[k] != '{' && name[k] != '}' && !Chars.IsSpace(name[k]) {
      assert IsNameChar(name[k]);
    }
  }

  /** The one argument of a call on a variable name is its value. */
  lemma NameArgument(ctx: map<string, Value>, name: string)
    requires TemplateProperties.IsName(name)
    ensures Arguments(ctx, name, 0) == [Resolve(ctx, name)]
  {
    NameWord(name);
    ArgumentsWords(ctx, [name]);
    ArgumentKinds(ctx, "", name);
  }

  lemma UpperTag(name: string)
    ensures "{{#upper " + name + "}}" == "{{#" + "upper" + " " + name + "}}"
  {
    assert "{{#" + "upper" + " " == "{{#upper ";
  }

  /** "{{#upper x}}" with the default helpers prints x's value
      upper-cased. */
  lemma UpperVariable(name: string, ctx: map<string, Value>)
    requires TemplateProperties.IsName(name)
    ensures Render("{{#upper " + name + "}}", ctx, Registry(map[])).text == Chars.Upper(ToString(Resolve(ctx, name)))
  {
    var reg := Registry(map[]);
    assert reg["upper"] == Upper;
    assert TemplateProperties.IsName("upper");
    NameWord(name);
    UpperTag(name);
    TemplateProperties.HelperTemplate("upper", name, ctx, reg);
    NameArgument(ctx, name);
  }

  /** upper and lower keep the length and leave no char of the other case;
      applying either twice is applying it once, and capitalize leaves an
      upper-cased text as it is. Without arguments all three give "". */
  lemma CaseHelpers(v: Value, rest: seq<Value>)
    ensures var u := Call(Upper, [v] + rest).value;
      |u| == |ToString(v)| && (forall i :: 0 <= i < |u| ==> !Chars.IsLower(u[i])) &&
      Call(Upper, [Str(u)]) == Ok(u) && Call(Capitalize, [Str(u)]) == Ok(u)
    ensures var l := Call(Lower, [v] + rest).value;
      |l| == |ToString(v)| && (forall i :: 0 <= i < |l| ==> !Chars.IsUpper(l[i])) &&
      Call(Lower, [Str(l)]) == Ok(l)
    ensures Call(Upper, []) == Ok("") && Call(Lower, []) == Ok("") && Call(Capitalize, []) == Ok("")
  {
    var s := ToString(v);
    var u := Chars.Upper(s);
    assert Chars.Upper(u) == u;
    if u != [] {
      assert Capitalized(u) == u;
    }
    var l := Chars.Lower(s);
    assert Chars.Lower(l) == l;
  }
}
