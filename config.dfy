/** The configuration of core/config.cpp and core/config.hpp: the four
    sections with their defaults, the validators, the typed loaders that copy
    fields out of the TOML document, the environment overrides, the
    root-key schema check and the loading sequence.  The environment, the
    file's existence and contents and the floating-point conversion of TOML
    numbers are parameters. */
module Config {
  import opened Wrappers
  import opened StdString
  import opened StdMap
  import Chars
  import FileUtils
  import Toml

  // ---------------------------------------------------------------------
  // The sections

  datatype SiteConfig = SiteConfig(name: string, baseUrl: string, description: string, author: string, language: string)

  datatype BuildConfig = BuildConfig(
    outputDir: string, contentDir: string, stylesDir: string, templatesDir: string,
    globalStyles: seq<string>, layoutStyles: map<string, seq<string>>,
    minifyCss: bool, minifyHtml: bool)

  /** port is a 32-bit int. */
  datatype DevConfig = DevConfig(port: int, host: string, autoReload: bool, liveReload: bool)

  /** maxFileSize is a 64-bit size_t. */
  datatype PerformanceConfig = PerformanceConfig(enableCache: bool, cacheMaxAge: int, maxFileSize: nat, parallelProcessing: bool)

  /** The four sections of a Config. */
  datatype Settings = Settings(site: SiteConfig, build: BuildConfig, dev: DevConfig, performance: PerformanceConfig)

  const MiB: nat := 1024 * 1024

  const DefaultSite := SiteConfig("My Chisel Site", "", "", "", "en")
  const DefaultBuild := BuildConfig("dist", "content", "styles", "templates", ["base.css"],
                                    map["default" := [], "post" := ["post.css"]], false, false)
  const DefaultDev := DevConfig(3000, "localhost", true, false)
  const DefaultPerformance := PerformanceConfig(true, 3600, 10 * MiB, true)
  const Defaults := Settings(DefaultSite, DefaultBuild, DefaultDev, DefaultPerformance)

  /** What static_cast<int> and static_cast<size_t> make of a TOML number's
      floating-point value, given for each lexeme. */
  datatype Numbers = Numbers(toInt: string -> int, toSize: string -> nat)

  // ---------------------------------------------------------------------
  // Validation: the message of the ConfigError thrown, or None

  function SiteError(site: SiteConfig): (r: Option<string>)
    ensures r.None? <==> site.name != [] && (site.language == [] || |site.language| == 2 || |site.language| == 5)
  {
    if site.name == [] then Some("Site name cannot be empty")
    else if site.language != [] && |site.language| != 2 && |site.language| != 5 then
      Some("Language code must be in format 'en' or 'en-US'")
    else None
  }

  function BuildError(build: BuildConfig): (r: Option<string>)
    ensures r.None? <==>
      build.outputDir != [] && build.contentDir != [] && build.stylesDir != [] && build.templatesDir != [] &&
      build.outputDir != build.contentDir && build.outputDir != build.stylesDir && build.outputDir != build.templatesDir
  {
    if build.outputDir == [] then Some("Output directory cannot be empty")
    else if build.contentDir == [] then Some("Content directory cannot be empty")
    else if build.stylesDir == [] then Some("Styles directory cannot be empty")
    else if build.templatesDir == [] then Some("Templates directory cannot be empty")
    else if build.outputDir == build.contentDir || build.outputDir == build.stylesDir || build.outputDir == build.templatesDir then
      Some("Output directory cannot be the same as content, styles, or templates directory")
    else None
  }

  function DevError(dev: DevConfig): (r: Option<string>)
    ensures r.None? <==> 1024 <= dev.port <= 65535 && dev.host != []
  {
    if dev.port < 1024 || dev.port > 65535 then Some("Port must be between 1024 and 65535")
    else if dev.host == [] then Some("Host cannot be empty")
    else None
  }

  function PerformanceError(performance: PerformanceConfig): (r: Option<string>)
    ensures r.None? <==> performance.cacheMaxAge >= 0 && performance.maxFileSize > 0
  {
    if performance.cacheMaxAge < 0 then Some("Cache max age cannot be negative")
    else if performance.maxFileSize == 0 then Some("Max file size must be greater than 0")
    else None
  }

  const VALIDATION_PREFIX := "Configuration validation failed: "

  /** A rethrow with a prefix: the message of the new exception. */
  function Wrapped(prefix: string, error: Option<string>): (r: Option<string>)
    ensures r.Some? <==> error.Some?
    ensures r.Some? ==> r.value == prefix + error.value
  {
    match error
    case None => None
    case Some(m) => Some(prefix + m)
  }

  /** Config::validate: the sections are checked site, build, dev,
      performance, and the first failure is rethrown with a prefix. */
  function ValidationError(s: Settings): (r: Option<string>)
    ensures r == None <==>
      SiteError(s.site) == None && BuildError(s.build) == None && DevError(s.dev) == None && PerformanceError(s.performance) == None
  {
    var first :=
      if SiteError(s.site).Some? then SiteError(s.site)
      else if BuildError(s.build).Some? then BuildError(s.build)
      else if DevError(s.dev).Some? then DevError(s.dev)
      else PerformanceError(s.performance);
    Wrapped(VALIDATION_PREFIX, first)
  }

  /** The validators run in order and the first failing one decides the
      message. */
  lemma ValidationOrder(s: Settings)
    ensures SiteError(s.site).Some? ==> ValidationError(s) == Some(VALIDATION_PREFIX + SiteError(s.site).value)
    ensures SiteError(s.site).None? && BuildError(s.build).Some? ==>
      ValidationError(s) == Some(VALIDATION_PREFIX + BuildError(s.build).value)
    ensures SiteError(s.site).None? && BuildError(s.build).None? && DevError(s.dev).Some? ==>
      ValidationError(s) == Some(VALIDATION_PREFIX + DevError(s.dev).value)
    ensures SiteError(s.site).None? && BuildError(s.build).None? && DevError(s.dev).None? && PerformanceError(s.performance).Some? ==>
      ValidationError(s) == Some(VALIDATION_PREFIX + PerformanceError(s.performance).value)
  {
  }

  /** The built-in defaults pass validation. */
  lemma DefaultsValid()
    ensures ValidationError(Defaults) == None
  {
    assert |DefaultSite.language| == 2;
    assert DefaultBuild.outputDir != DefaultBuild.contentDir && DefaultBuild.outputDir != DefaultBuild.stylesDir;
    assert DefaultBuild.outputDir != DefaultBuild.templatesDir;
  }

  /** Content, styles and templates may share a directory; only the output
      directory must differ from them. */
  lemma SharedSourceDirs(build: BuildConfig, dir: string)
    requires build.outputDir != [] && dir != [] && build.outputDir != dir
    requires build.contentDir == dir && build.stylesDir == dir && build.templatesDir == dir
    ensures BuildError(build) == None
  {
  }

  // ---------------------------------------------------------------------
  // Environment values

  const TRUE_WORDS: set<string> := {"true", "1", "yes", "on"}
  const FALSE_WORDS: set<string> := {"false", "0", "no", "off"}

  /** get_env_bool with the variable's value (None when unset). */
  function EnvBool(value: Option<string>, default: bool): (r: bool)
  {
    match value
    case None => default
    case Some(v) =>
      var lower := Chars.Lower(v);
      if lower in TRUE_WORDS then true
      else if lower in FALSE_WORDS then false
      else default
  }

  /** The mapping of get_env_bool: a true word gives true, a false word
      false, and anything else, or an unset variable, the default. */
  lemma EnvBoolWords(value: Option<string>, default: bool)
    ensures value.Some? && Chars.Lower(value.value) in TRUE_WORDS ==> EnvBool(value, default)
    ensures value.Some? && Chars.Lower(value.value) in FALSE_WORDS ==> !EnvBool(value, default)
    ensures (value.None? || Chars.Lower(value.value) !in TRUE_WORDS + FALSE_WORDS) ==> EnvBool(value, default) == default
  {
  }

  /** Lowering a lowered string changes nothing. */
  lemma LowerIdempotent(s: string)
    ensures Chars.Lower(Chars.Lower(s)) == Chars.Lower(s)
  {
    var l := Chars.Lower(s);
    assert forall i :: 0 <= i < |l| ==> Chars.Lower(l)[i] == l[i];
  }

  /** get_env_bool ignores case: a value and its lower-case form map alike. */
  lemma EnvBoolCaseInsensitive(v: string, default: bool)
    ensures EnvBool(Some(v), default) == EnvBool(Some(Chars.Lower(v)), default)
  {
    LowerIdempotent(v);
  }

  /** get_env_int with the variable's value: std::stoi, or the default when
      unset or unreadable. */
  function EnvInt(value: Option<string>, default: int): (r: int)
    ensures value.Some? && Stoi(value.value).Some? ==> r == Stoi(value.value).value
    ensures (value.None? || Stoi(value.value).None?) ==> r == default
  {
    match value
    case None => default
    case Some(v) => match Stoi(v) case Some(n) => n case None => default
  }

  /** The value of the variable, or the current one. */
  function EnvString(env: map<string, string>, key: string, current: string): string {
    if key in env then env[key] else current
  }

  /** The environment overrides of apply_env_overrides, in its order. */
  function Overridden(s: Settings, env: map<string, string>): Settings {
    var site := s.site.(
      name := EnvString(env, "CHISEL_SITE_NAME", s.site.name),
      baseUrl := EnvString(env, "CHISEL_BASE_URL", s.site.baseUrl),
      description := EnvString(env, "CHISEL_SITE_DESCRIPTION", s.site.description),
      author := EnvString(env, "CHISEL_SITE_AUTHOR", s.site.author),
      language := EnvString(env, "CHISEL_SITE_LANGUAGE", s.site.language));
    var build := s.build.(
      outputDir := EnvString(env, "CHISEL_OUTPUT_DIR", s.build.outputDir),
      contentDir := EnvString(env, "CHISEL_CONTENT_DIR", s.build.contentDir),
      stylesDir := EnvString(env, "CHISEL_STYLES_DIR", s.build.stylesDir),
      templatesDir := EnvString(env, "CHISEL_TEMPLATES_DIR", s.build.templatesDir),
      minifyCss := EnvBool(Lookup(env, "CHISEL_MINIFY_CSS"), s.build.minifyCss),
      minifyHtml := EnvBool(Lookup(env, "CHISEL_MINIFY_HTML"), s.build.minifyHtml));
    var dev := s.dev.(
      port := EnvInt(Lookup(env, "CHISEL_DEV_PORT"), s.dev.port),
      host := EnvString(env, "CHISEL_DEV_HOST", s.dev.host),
      autoReload := EnvBool(Lookup(env, "CHISEL_AUTO_RELOAD"), s.dev.autoReload),
      liveReload := EnvBool(Lookup(env, "CHISEL_LIVE_RELOAD"), s.dev.liveReload));
    var performance := s.performance.(
      enableCache := EnvBool(Lookup(env, "CHISEL_ENABLE_CACHE"), s.performance.enableCache),
      cacheMaxAge := EnvInt(Lookup(env, "CHISEL_CACHE_MAX_AGE"), s.performance.cacheMaxAge),
      parallelProcessing := EnvBool(Lookup(env, "CHISEL_PARALLEL_PROCESSING"), s.performance.parallelProcessing),
      maxFileSize :=
        if "CHISEL_MAX_FILE_SIZE" in env && Stoul(env["CHISEL_MAX_FILE_SIZE"], 10).Some? then
          Stoul(env["CHISEL_MAX_FILE_SIZE"], 10).value
        else s.performance.maxFileSize);
    Settings(site, build, dev, performance)
  }

  /** get_env: the value of a set variable. */
  function Lookup(env: map<string, string>, key: string): (r: Option<string>)
    ensures r.Some? <==> key in env
    ensures r.Some? ==> r.value == env[key]
  {
    if key in env then Some(env[key]) else None
  }

  /** An empty environment overrides nothing. */
  lemma NoOverrides(s: Settings)
    ensures Overridden(s, map[]) == s
  {
  }

  /** The environment overrides are idempotent: setting the same values
      again changes nothing. */
  lemma OverridesIdempotent(s: Settings, env: map<string, string>)
    ensures Overridden(Overridden(s, env), env) == Overridden(s, env)
  {
  }

  // ---------------------------------------------------------------------
  // Loading typed fields out of the document

  /** A section of the root table, when present as a table. */
  function Section(root: map<string, Toml.Value>, name: string): (r: Option<map<string, Toml.Value>>)
    ensures r.Some? <==> name in root && root[name].Object?
  {
    if name in root && root[name].Object? then Some(root[name].fields) else None
  }

  /** get_string: the field's text when present as a string. */
  function StringField(obj: map<string, Toml.Value>, key: string, target: string): string {
    if key in obj && obj[key].Str? then obj[key].s else target
  }

  /** get_bool: the field's value when present as a boolean. */
  function BoolField(obj: map<string, Toml.Value>, key: string, target: bool): bool {
    if key in obj && obj[key].Bool? then obj[key].b else target
  }

  /** get_int: the field's number cast to int when present as a number. */
  function IntField(obj: map<string, Toml.Value>, key: string, target: int, numbers: Numbers): int {
    if key in obj && obj[key].Number? then numbers.toInt(obj[key].lexeme) else target
  }

  /** load_site_config. */
  function SiteLoaded(site: SiteConfig, root: map<string, Toml.Value>): SiteConfig {
    match Section(root, "site")
    case None => site
    case Some(obj) =>
      SiteConfig(StringField(obj, "name", site.name), StringField(obj, "base_url", site.baseUrl),
                 StringField(obj, "description", site.description), StringField(obj, "author", site.author),
                 StringField(obj, "language", site.language))
  }

  /** The string items of an array, in order; other items are skipped. */
  function StringItems(items: seq<Toml.Value>): seq<string> {
    if items == [] then []
    else StringItems(items[..|items| - 1]) + (if items[|items| - 1].Str? then [items[|items| - 1].s] else [])
  }

  /** StringItems keeps exactly the strings: it distributes over
      concatenation, keeps one string and drops any other value. */
  lemma {:induction false} StringItemsAppend(a: seq<Toml.Value>, b: seq<Toml.Value>)
    ensures StringItems(a + b) == StringItems(a) + StringItems(b)
    decreases |b|
  {
    if b == [] {
      assert a + b == a;
    } else {
      var c := b[..|b| - 1];
      assert (a + b)[..|a + b| - 1] == a + c;
      StringItemsAppend(a, c);
    }
  }

  /** One item: a string is kept, anything else dropped. */
  lemma StringItemsOne(v: Toml.Value)
    ensures StringItems([v]) == if v.Str? then [v.s] else []
  {
    assert [v][..0] == [];
  }

  /** load_layout_styles on one table: when it has a layout_styles table,
      the map is replaced by one entry per array-valued layout. */
  function LayoutStylesFrom(obj: map<string, Toml.Value>, current: map<string, seq<string>>): (r: map<string, seq<string>>)
    ensures Section(obj, "layout_styles").None? ==> r == current
    ensures Section(obj, "layout_styles").Some? ==>
      var layouts := obj["layout_styles"].fields;
      r.Keys == set k | k in layouts && layouts[k].Array? &&
      forall k :: k in r ==> k in layouts && layouts[k].Array? && r[k] == StringItems(layouts[k].items)
  {
    match Section(obj, "layout_styles")
    case None => current
    case Some(layouts) => map k | k in layouts && layouts[k].Array? :: StringItems(layouts[k].items)
  }

  /** load_build_config. */
  function BuildLoaded(build: BuildConfig, root: map<string, Toml.Value>): BuildConfig {
    match Section(root, "build")
    case None => build
    case Some(obj) =>
      var styles := if "global_styles" in obj && obj["global_styles"].Array? then StringItems(obj["global_styles"].items)
                    else build.globalStyles;
      BuildConfig(StringField(obj, "output_dir", build.outputDir), StringField(obj, "content_dir", build.contentDir),
                  StringField(obj, "styles_dir", build.stylesDir), StringField(obj, "templates_dir", build.templatesDir),
                  styles, LayoutStylesFrom(root, LayoutStylesFrom(obj, build.layoutStyles)),
                  BoolField(obj, "minify_css", build.minifyCss), BoolField(obj, "minify_html", build.minifyHtml))
  }

  /** A top-level layout_styles table wins over one inside [build], but is
      read only when the document has a [build] table. */
  lemma LayoutStylesPrecedence(build: BuildConfig, root: map<string, Toml.Value>)
    ensures Section(root, "build").None? ==> BuildLoaded(build, root).layoutStyles == build.layoutStyles
    ensures Section(root, "build").Some? && Section(root, "layout_styles").Some? ==>
      BuildLoaded(build, root).layoutStyles == LayoutStylesFrom(root, map[])
  {
  }

  /** load_dev_config. */
  function DevLoaded(dev: DevConfig, root: map<string, Toml.Value>, numbers: Numbers): DevConfig {
    match Section(root, "dev")
    case None => dev
    case Some(obj) =>
      DevConfig(IntField(obj, "port", dev.port, numbers), StringField(obj, "host", dev.host),
                BoolField(obj, "auto_reload", dev.autoReload), BoolField(obj, "live_reload", dev.liveReload))
  }

  const KB_MULTIPLIER: nat := 1024
  const MB_MULTIPLIER: nat := 1024 * 1024
  const GB_MULTIPLIER: nat := 1024 * 1024 * 1024

  /** The string form of max_file_size: a KB, MB or GB suffix is removed
      and multiplies the std::stoull value of the rest, in 64-bit
      arithmetic; None when std::stoull throws. */
  function SizeValue(text: string): (r: Option<nat>)
    ensures r.Some? ==> r.value < ULONG_LIMIT
  {
    var (digits, multiplier) :=
      if FileUtils.EndsWith(text, "KB") then (text[..|text| - 2], KB_MULTIPLIER)
      else if FileUtils.EndsWith(text, "MB") then (text[..|text| - 2], MB_MULTIPLIER)
      else if FileUtils.EndsWith(text, "GB") then (text[..|text| - 2], GB_MULTIPLIER)
      else (text, 1);
    match Stoul(digits, 10)
    case None => None
    case Some(base) => Some((base * multiplier) % ULONG_LIMIT)
  }

  /** std::stoull reads back a numeral std::to_string printed. */
  lemma StoulOfNatToString(n: nat)
    requires n < ULONG_LIMIT
    ensures Stoul(NatToString(n), 10) == Some(n)
  {
    var s := NatToString(n);
    assert SkipSpace(s, 0) == 0;
    DigitRunAll(s, 0, 10);
    RunValueIsDecimal(s, |s|);
    NatToStringValue(n);
    assert s[..|s|] == s;
  }

  /** Text ending in a digit has none of the three suffixes. */
  lemma NoSuffix(s: string)
    requires s != [] && Chars.IsDigit(s[|s| - 1])
    ensures !FileUtils.EndsWith(s, "KB") && !FileUtils.EndsWith(s, "MB") && !FileUtils.EndsWith(s, "GB")
  {
    assert |s| >= 2 ==> s[|s| - 2 + 1] != 'B';
  }

  /** A numeral without a suffix is bytes. */
  lemma SizePlain(n: nat)
    requires n < ULONG_LIMIT
    ensures SizeValue(NatToString(n)) == Some(n)
  {
    StoulOfNatToString(n);
    NoSuffix(NatToString(n));
    SmallUnchanged(n);
  }

  /** A size below 2^64 survives the 64-bit product with 1. */
  lemma SmallUnchanged(n: nat)
    requires n < ULONG_LIMIT
    ensures (n * 1) % ULONG_LIMIT == n
  {
  }

  /** A suffix without digits fails. */
  lemma SizeNoDigits()
    ensures SizeValue("KB") == None
  {
    assert "KB"[..0] == "";
    assert SkipSpace("", 0) == 0;
  }

  /** The text before a two-char suffix. */
  lemma SuffixCut(s: string, suffix: string)
    requires |suffix| == 2
    ensures FileUtils.EndsWith(s + suffix, suffix) && (s + suffix)[..|s + suffix| - 2] == s
  {
  }

  /** A numeral with a KB suffix is that many kibibytes. */
  lemma SizeKB(n: nat)
    requires n < ULONG_LIMIT
    ensures SizeValue(NatToString(n) + "KB") == Some((n * KB_MULTIPLIER) % ULONG_LIMIT)
  {
    StoulOfNatToString(n);
    SuffixCut(NatToString(n), "KB");
  }

  /** A numeral with an MB suffix is that many mebibytes. */
  lemma SizeMB(n: nat)
    requires n < ULONG_LIMIT
    ensures SizeValue(NatToString(n) + "MB") == Some((n * MB_MULTIPLIER) % ULONG_LIMIT)
  {
    var s := NatToString(n) + "MB";
    StoulOfNatToString(n);
    SuffixCut(NatToString(n), "MB");
    OtherSuffix(s, "KB");
  }

  /** A numeral with a GB suffix is that many gibibytes. */
  lemma SizeGB(n: nat)
    requires n < ULONG_LIMIT
    ensures SizeValue(NatToString(n) + "GB") == Some((n * GB_MULTIPLIER) % ULONG_LIMIT)
  {
    var s := NatToString(n) + "GB";
    StoulOfNatToString(n);
    SuffixCut(NatToString(n), "GB");
    OtherSuffix(s, "KB");
    OtherSuffix(s, "MB");
  }

  /** Text whose second-last char differs from a suffix's first does not
      end in it. */
  lemma OtherSuffix(s: string, suffix: string)
    requires |suffix| == 2 && |s| >= 2 && s[|s| - 2] != suffix[0]
    ensures !FileUtils.EndsWith(s, suffix)
  {
    assert s[|s| - |suffix| + 0] != suffix[0];
  }

  /** load_performance_config. */
  function PerformanceLoaded(performance: PerformanceConfig, root: map<string, Toml.Value>, numbers: Numbers): PerformanceConfig {
    match Section(root, "performance")
    case None => performance
    case Some(obj) =>
      var size :=
        if "max_file_size" !in obj then performance.maxFileSize
        else match obj["max_file_size"]
          case Number(lexeme) => numbers.toSize(lexeme)
          case Str(text) => (match SizeValue(text) case Some(v) => v case None => performance.maxFileSize)
          case _ => performance.maxFileSize;
      PerformanceConfig(BoolField(obj, "enable_cache", performance.enableCache),
                        IntField(obj, "cache_max_age", performance.cacheMaxAge, numbers),
                        size,
                        BoolField(obj, "parallel_processing", performance.parallelProcessing))
  }

  /** The four loaders, in load_from_string's order. */
  function Loaded(s: Settings, root: map<string, Toml.Value>, numbers: Numbers): Settings {
    Settings(SiteLoaded(s.site, root), BuildLoaded(s.build, root), DevLoaded(s.dev, root, numbers),
             PerformanceLoaded(s.performance, root, numbers))
  }

  /** A field present with the expected type is copied whatever the old
      value; any other field keeps the old value. */
  lemma FieldCopied(obj: map<string, Toml.Value>, key: string, a: string, b: string)
    ensures key in obj && obj[key].Str? ==> StringField(obj, key, a) == StringField(obj, key, b) == obj[key].s
    ensures !(key in obj && obj[key].Str?) ==> StringField(obj, key, a) == a
  {
  }

  /** Loading the same document twice is loading it once. */
  lemma LoadIdempotent(s: Settings, root: map<string, Toml.Value>, numbers: Numbers)
    ensures Loaded(Loaded(s, root, numbers), root, numbers) == Loaded(s, root, numbers)
  {
  }

  /** A document without the four sections changes nothing. */
  lemma EmptyDocument(s: Settings, numbers: Numbers)
    ensures Loaded(s, map[], numbers) == s
  {
  }

  // ---------------------------------------------------------------------
  // validate_schema

  const VALID_SECTIONS: set<string> := {"site", "build", "dev", "performance", "layout_styles"}

  /** The first of keys that is not a valid section. */
  function FirstUnknown(keys: seq<string>): (r: Option<string>)
    ensures r.None? <==> forall i :: 0 <= i < |keys| ==> keys[i] in VALID_SECTIONS
    ensures r.Some? ==> r.value in keys && r.value !in VALID_SECTIONS
  {
    if keys == [] then None
    else if keys[0] !in VALID_SECTIONS then Some(keys[0])
    else FirstUnknown(keys[1..])
  }

  /** validate_schema's error message, or None when it returns true. */
  function SchemaError(content: string): Option<string> {
    match Toml.Deserialized(content)
    case Err(e) => Some("TOML parsing error: " + e)
    case Ok(root) =>
      match FirstUnknown(SortedKeys(root.fields.Keys))
      case None => None
      case Some(k) => Some("Unknown configuration section: " + k)
  }

  /** validate_schema accepts exactly the documents that parse and whose
      root keys are all known sections; it names an unknown one otherwise. */
  lemma SchemaAccepts(content: string)
    ensures SchemaError(content) == None <==>
      Toml.Deserialized(content).Ok? && Toml.Deserialized(content).value.fields.Keys <= VALID_SECTIONS
    ensures Toml.Deserialized(content).Ok? && SchemaError(content).Some? ==>
      exists k :: k in Toml.Deserialized(content).value.fields && k !in VALID_SECTIONS &&
        SchemaError(content) == Some("Unknown configuration section: " + k)
  {
    match Toml.Deserialized(content)
    case Err(_) =>
    case Ok(root) =>
      var keys := SortedKeys(root.fields.Keys);
      if FirstUnknown(keys).None? {
        assert forall k :: k in root.fields.Keys ==> k in VALID_SECTIONS by {
          forall k | k in root.fields.Keys ensures k in VALID_SECTIONS {
            var i :| 0 <= i < |keys| && keys[i] == k;
          }
        }
      }
  }

  /** validate_schema: the parse, then the loop over the root keys. The
      source walks an unordered_map, whose order is unspecified; the model
      fixes ascending order, so with several unknown sections it reports
      the least. */
  method ValidateSchema(content: string) returns (error: Option<string>)
    ensures error == SchemaError(content)
  {
    var parsed := Toml.Deserialized(content);
    if parsed.Err? {
      return Some("TOML parsing error: " + parsed.error);
    }
    var unknown := FindUnknown(SortedKeys(parsed.value.fields.Keys));
    if unknown.Some? {
      return Some("Unknown configuration section: " + unknown.value);
    }
    return None;
  }

  /** The loop of validate_schema: the first key that is not a section. */
  method FindUnknown(keys: seq<string>) returns (r: Option<string>)
    ensures r == FirstUnknown(keys)
  {
    var i := 0;
    while i < |keys|
      invariant i <= |keys|
      invariant FirstUnknown(keys) == FirstUnknown(keys[i..])
    {
      assert keys[i..][1..] == keys[i + 1..];
      if keys[i] !in VALID_SECTIONS {
        return Some(keys[i]);
      }
      i := i + 1;
    }
    return None;
  }

  // ---------------------------------------------------------------------
  // The Config object

  const PARSE_PREFIX := "Failed to parse configuration: "
  const LOAD_PREFIX := "Failed to load configuration: "
  const SCHEMA_PREFIX := "Configuration schema validation failed: "

  class Config {
    var site: SiteConfig
    var build: BuildConfig
    var dev: DevConfig
    var performance: PerformanceConfig

    /** Config(): every section at its defaults. */
    constructor()
      ensures Current() == Defaults
    {
      site, build, dev, performance := DefaultSite, DefaultBuild, DefaultDev, DefaultPerformance;
    }

    function Current(): Settings
      reads this
    {
      Settings(site, build, dev, performance)
    }

    /** Config::validate: the message of the ConfigError it throws. */
    method Validate() returns (error: Option<string>)
      ensures error == ValidationError(Current())
    {
      error := ValidationError(Current());
    }

    method LoadSite(root: map<string, Toml.Value>)
      modifies this`site
      ensures site == SiteLoaded(old(site), root)
    {
      if "site" !in root || !root["site"].Object? {
        return;
      }
      var obj := root["site"].fields;
      site := site.(name := StringField(obj, "name", site.name));
      site := site.(baseUrl := StringField(obj, "base_url", site.baseUrl));
      site := site.(description := StringField(obj, "description", site.description));
      site := site.(author := StringField(obj, "author", site.author));
      site := site.(language := StringField(obj, "language", site.language));
    }

    /** The global_styles loop: the array's strings, in order. */
    static method CollectStrings(items: seq<Toml.Value>) returns (styles: seq<string>)
      ensures styles == StringItems(items)
    {
      styles := [];
      var i := 0;
      while i < |items|
        invariant i <= |items|
        invariant styles == StringItems(items[..i])
      {
        assert items[..i + 1][..i] == items[..i];
        if items[i].Str? {
          styles := styles + [items[i].s];
        }
        i := i + 1;
      }
      assert items[..i] == items;
    }

    /** load_layout_styles: clears the map and refills it, one layout at a
        time. */
    static method LayoutStyles(obj: map<string, Toml.Value>, current: map<string, seq<string>>) returns (r: map<string, seq<string>>)
      ensures r == LayoutStylesFrom(obj, current)
    {
      if "layout_styles" !in obj || !obj["layout_styles"].Object? {
        return current;
      }
      var layouts := obj["layout_styles"].fields;
      r := map[];
      var rest := layouts.Keys;
      while rest != {}
        invariant rest <= layouts.Keys
        invariant forall k :: k in r <==> k in layouts && k !in rest && layouts[k].Array?
        invariant forall k :: k in r ==> r[k] == StringItems(layouts[k].items)
        decreases |rest|
      {
        var name :| name in rest;
        if layouts[name].Array? {
          var styles := CollectStrings(layouts[name].items);
          r := r[name := styles];
        }
        rest := rest - {name};
      }
    }

    method LoadBuild(root: map<string, Toml.Value>)
      modifies this`build
      ensures build == BuildLoaded(old(build), root)
    {
      if "build" !in root || !root["build"].Object? {
        return;
      }
      var obj := root["build"].fields;
      var outputDir := StringField(obj, "output_dir", build.outputDir);
      var contentDir := StringField(obj, "content_dir", build.contentDir);
      var stylesDir := StringField(obj, "styles_dir", build.stylesDir);
      var templatesDir := StringField(obj, "templates_dir", build.templatesDir);
      var minifyCss := BoolField(obj, "minify_css", build.minifyCss);
      var minifyHtml := BoolField(obj, "minify_html", build.minifyHtml);
      var styles := build.globalStyles;
      if "global_styles" in obj && obj["global_styles"].Array? {
        styles := CollectStrings(obj["global_styles"].items);
      }
      var layouts := LayoutStyles(obj, build.layoutStyles);
      layouts := LayoutStyles(root, layouts);
      build := BuildConfig(outputDir, contentDir, stylesDir, templatesDir, styles, layouts, minifyCss, minifyHtml);
    }

    method LoadDev(root: map<string, Toml.Value>, numbers: Numbers)
      modifies this`dev
      ensures dev == DevLoaded(old(dev), root, numbers)
    {
      if "dev" !in root || !root["dev"].Object? {
        return;
      }
      var obj := root["dev"].fields;
      dev := dev.(port := IntField(obj, "port", dev.port, numbers));
      dev := dev.(host := StringField(obj, "host", dev.host));
      dev := dev.(autoReload := BoolField(obj, "auto_reload", dev.autoReload));
      dev := dev.(liveReload := BoolField(obj, "live_reload", dev.liveReload));
    }

    method LoadPerformance(root: map<string, Toml.Value>, numbers: Numbers)
      modifies this`performance
      ensures performance == PerformanceLoaded(old(performance), root, numbers)
    {
      if "performance" !in root || !root["performance"].Object? {
        return;
      }
      var obj := root["performance"].fields;
      performance := performance.(enableCache := BoolField(obj, "enable_cache", performance.enableCache));
      performance := performance.(cacheMaxAge := IntField(obj, "cache_max_age", performance.cacheMaxAge, numbers));
      performance := performance.(parallelProcessing := BoolField(obj, "parallel_processing", performance.parallelProcessing));
      if "max_file_size" in obj {
        var value := obj["max_file_size"];
        if value.Number? {
          performance := performance.(maxFileSize := numbers.toSize(value.lexeme));
        } else if value.Str? {
          var size := SizeValue(value.s);
          if size.Some? {
            performance := performance.(maxFileSize := size.value);
          }
        }
      }
    }

    /** apply_env_overrides, with the environment as a map. */
    method ApplyEnvOverrides(env: map<string, string>)
      modifies this
      ensures Current() == Overridden(old(Current()), env)
    {
      var s := Overridden(Current(), env);
      site, build, dev, performance := s.site, s.build, s.dev, s.performance;
    }

    /** load_from_string: the message of the ConfigError it throws, or
        None.  A document that does not parse changes nothing; otherwise
        the sections are loaded, the environment applied and the result
        validated. */
    method LoadFromString(content: string, env: map<string, string>, numbers: Numbers) returns (error: Option<string>)
      modifies this
      ensures Toml.Deserialized(content).Err? ==>
        Current() == old(Current()) && error == Some(PARSE_PREFIX + Toml.Deserialized(content).error)
      ensures Toml.Deserialized(content).Ok? ==>
        Current() == Overridden(Loaded(old(Current()), Toml.Deserialized(content).value.fields, numbers), env) &&
        error == Wrapped(PARSE_PREFIX, ValidationError(Current()))
    {
      var parsed := Toml.Deserialized(content);
      if parsed.Err? {
        return Some(PARSE_PREFIX + parsed.error);
      }
      var root := parsed.value.fields;
      ghost var before := Current();
      LoadSite(root);
      LoadBuild(root);
      LoadDev(root, numbers);
      LoadPerformance(root, numbers);
      assert Current() == Loaded(before, root, numbers);
      ApplyEnvOverrides(env);
      var invalid := Validate();
      error := Wrapped(PARSE_PREFIX, invalid);
    }

    /** Config::load with the file's existence and contents given: without
        a file, the defaults with the environment applied are validated;
        a file failing the schema check changes nothing; otherwise
        load_from_string runs and its failure is prefixed once more. */
    method Load(found: bool, content: string, env: map<string, string>, numbers: Numbers) returns (error: Option<string>)
      modifies this
      ensures !found ==> Current() == Overridden(old(Current()), env) && error == ValidationError(Current())
      ensures found && SchemaError(content).Some? ==>
        Current() == old(Current()) && error == Some(LOAD_PREFIX + SCHEMA_PREFIX + SchemaError(content).value)
      ensures found && SchemaError(content).None? ==>
        Toml.Deserialized(content).Ok? &&
        Current() == Overridden(Loaded(old(Current()), Toml.Deserialized(content).value.fields, numbers), env) &&
        error == Wrapped(LOAD_PREFIX, Wrapped(PARSE_PREFIX, ValidationError(Current())))
    {
      if !found {
        ApplyEnvOverrides(env);
        error := Validate();
        return;
      }
      var schema := ValidateSchema(content);
      if schema.Some? {
        return Some(LOAD_PREFIX + SCHEMA_PREFIX + schema.value);
      }
      SchemaAccepts(content);
      var failure := LoadFromString(content, env, numbers);
      error := Wrapped(LOAD_PREFIX, failure);
    }
  }
}
