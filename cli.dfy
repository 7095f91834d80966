/** The command line of config_cli.cpp and config_cli.hpp: the argv loop of
    ArgumentParser::parse with parse_flag, the port and flag checks of
    validate, and the env helpers with the environment value given. */
module Cli {
  import opened Wrappers
  import opened StdString
  import Chars
  import Config

  const DEFAULT_PORT: int := 8080
  const DEFAULT_COMMAND := "build"
  const DEFAULT_HOST := "localhost"

  /** Arguments.  A project path of None is the current directory; the
      path std::filesystem::absolute would make of an argument is not
      modelled, so the argument itself is kept. */
  datatype Arguments = Arguments(
    command: string, projectPath: Option<string>, port: Option<int>, host: Option<string>,
    verbose: bool, quiet: bool, help: bool, version: bool, watch: bool, clean: bool,
    configFile: Option<string>)

  const Initial := Arguments(DEFAULT_COMMAND, None, None, None, false, false, false, false, false, false, None)

  /** The flags parse_flag knows, and everything else. */
  datatype FlagName = Help | Version | Verbose | Quiet | Watch | Clean | Port | Host | ConfigFile | Unknown
  {
    /** A flag that takes no value. */
    predicate IsSwitch() { !(Port? || Host? || ConfigFile? || Unknown?) }
  }

  /** The flag an argument names: long and short spellings alike. */
  function Named(arg: string): FlagName {
    if arg == "--help" || arg == "-h" then Help
    else if arg == "--version" || arg == "-v" then Version
    else if arg == "--verbose" then Verbose
    else if arg == "--quiet" || arg == "-q" then Quiet
    else if arg == "--watch" || arg == "-w" then Watch
    else if arg == "--clean" || arg == "-c" then Clean
    else if arg == "--port" || arg == "-p" then Port
    else if arg == "--host" then Host
    else if arg == "--config" then ConfigFile
    else Unknown
  }

  /** The spellings of the flags that take no value. */
  const SWITCHES: set<string> := {"--help", "-h", "--version", "-v", "--verbose", "--quiet", "-q", "--watch", "-w", "--clean", "-c"}

  /** The spellings of the flags that take the next argument as their value. */
  const VALUE_FLAGS: set<string> := {"--port", "-p", "--host", "--config"}

  /** Exactly the listed spellings are switches, and exactly the listed
      value flags take a value; nothing else is known. */
  lemma NamedSpellings(arg: string)
    ensures Named(arg).IsSwitch() <==> arg in SWITCHES
    ensures !Named(arg).IsSwitch() && !Named(arg).Unknown? <==> arg in VALUE_FLAGS
  {
  }

  /** A switch sets its field. */
  function Switched(name: FlagName, args: Arguments): Arguments
    requires name.IsSwitch()
  {
    match name
    case Help => args.(help := true)
    case Version => args.(version := true)
    case Verbose => args.(verbose := true)
    case Quiet => args.(quiet := true)
    case Watch => args.(watch := true)
    case Clean => args.(clean := true)
  }

  /** parse_flag: the arguments with the flag applied and how many entries
      of argv it used, or the message of the runtime_error it throws. */
  function Flag(arg: string, next: Option<string>, args: Arguments): (r: Result<(Arguments, nat)>)
    ensures r.Ok? ==> r.value.1 == if Named(arg).IsSwitch() then 1 else 2
    ensures r.Err? <==> Named(arg).Unknown? || (!Named(arg).IsSwitch() && next.None?) ||
                        (Named(arg).Port? && next.Some? && Stoi(next.value).None?)
  {
    var name := Named(arg);
    if name.IsSwitch() then Ok((Switched(name, args), 1))
    else if name.Unknown? then Err("Unknown flag: " + arg)
    else if next.None? then Err(MissingValue(name))
    else if name.Host? then Ok((args.(host := next), 2))
    else if name.ConfigFile? then Ok((args.(configFile := next), 2))
    else match Stoi(next.value)
      case None => Err("Invalid port number: " + next.value)
      case Some(port) => Ok((args.(port := Some(port)), 2))
  }

  /** The message for a value flag at the end of argv; -p reports itself
      as --port. */
  function MissingValue(name: FlagName): string {
    if name.Port? then "--port requires a value"
    else if name.Host? then "--host requires a value"
    else "--config requires a value"
  }

  const COMMANDS: set<string> := {"build", "dev", "serve", "help", "version"}
  const PATH_COMMANDS: set<string> := {"build", "dev", "serve"}

  /** A non-flag argument at index i: a command word only at index 1, a
      project path at index 1 or, after a building or serving command, at
      index 2; ignored anywhere else. */
  function Positional(arg: string, i: nat, args: Arguments): Arguments {
    if args.command == DEFAULT_COMMAND && i == 1 then
      if arg in COMMANDS then args.(command := arg) else args.(projectPath := Some(arg))
    else if i == 2 && args.command in PATH_COMMANDS then args.(projectPath := Some(arg))
    else args
  }

  /** The help and version commands set their flags. */
  function Finished(args: Arguments): Arguments {
    if args.command == "help" then args.(help := true)
    else if args.command == "version" then args.(version := true)
    else args
  }

  /** A flag is an argument whose first char is '-'. */
  predicate IsFlag(arg: string) { arg != [] && arg[0] == '-' }

  /** The loop of parse from index i. */
  function ParseFrom(argv: seq<string>, i: nat, args: Arguments): Result<Arguments>
    decreases |argv| - i
  {
    if i >= |argv| then Ok(Finished(args))
    else if IsFlag(argv[i]) then
      match Flag(argv[i], if i + 1 < |argv| then Some(argv[i + 1]) else None, args)
      case Err(e) => Err(e)
      case Ok((flagged, used)) => ParseFrom(argv, i + used, flagged)
    else ParseFrom(argv, i + 1, Positional(argv[i], i, args))
  }

  /** ArgumentParser::parse on argv (argv[0] is the program name). */
  function Parsed(argv: seq<string>): Result<Arguments> {
    ParseFrom(argv, 1, Initial)
  }

  /** ArgumentParser::parse: the loop over argv, the index advancing by what
      each flag used. */
  method Parse(argv: seq<string>) returns (r: Result<Arguments>)
    ensures r == Parsed(argv)
  {
    var args := Initial;
    var i := 1;
    while i < |argv|
      invariant ParseFrom(argv, i, args) == Parsed(argv)
      decreases |argv| - i
    {
      var arg := argv[i];
      var next := if i + 1 < |argv| then Some(argv[i + 1]) else None;
      if IsFlag(arg) {
        var flagged := Flag(arg, next, args);
        if flagged.Err? {
          return Err(flagged.error);
        }
        args := flagged.value.0;
        i := i + flagged.value.1;
      } else {
        args := Positional(arg, i, args);
        i := i + 1;
      }
    }
    return Ok(Finished(args));
  }

  // ---------------------------------------------------------------------
  // What parse promises

  /** A switch uses one entry and sets its field; a value flag at the end
      of argv fails, -p as --port; a known value flag uses two entries and
      sets its field; anything else is an unknown flag. */
  lemma FlagUse(arg: string, next: Option<string>, args: Arguments)
    ensures arg == "-q" ==> Flag(arg, next, args) == Ok((args.(quiet := true), 1))
    ensures arg == "-p" && next.None? ==> Flag(arg, next, args) == Err("--port requires a value")
    ensures arg == "--config" && next.None? ==> Flag(arg, next, args) == Err("--config requires a value")
    ensures arg == "--host" && next.Some? ==> Flag(arg, next, args) == Ok((args.(host := next), 2))
    ensures arg !in SWITCHES && arg !in VALUE_FLAGS ==> Flag(arg, next, args) == Err("Unknown flag: " + arg)
  {
    NamedSpellings(arg);
  }

  /** One command word sets the command; help and version also set their
      flags. */
  lemma CommandWord(program: string, word: string)
    requires word in COMMANDS
    ensures Parsed([program, word]).Ok?
    ensures Parsed([program, word]).value.command == word && Parsed([program, word]).value.projectPath == None
    ensures Parsed([program, word]).value.help == (word == "help")
    ensures Parsed([program, word]).value.version == (word == "version")
  {
    assert !IsFlag(word);
    assert ParseFrom([program, word], 2, Positional(word, 1, Initial)) == Ok(Finished(Initial.(command := word)));
  }

  /** A command word is recognised only as the first argument: after a
      project path it becomes the project path in turn, and the command
      stays build. */
  lemma CommandOnlyFirst(program: string, path: string, word: string)
    requires !IsFlag(path) && path !in COMMANDS && word in COMMANDS
    ensures Parsed([program, path, word]) == Ok(Initial.(projectPath := Some(word)))
  {
    var argv := [program, path, word];
    assert !IsFlag(word);
    var a1 := Initial.(projectPath := Some(path));
    var a2 := Initial.(projectPath := Some(word));
    assert Parsed(argv) == ParseFrom(argv, 2, a1);
    assert ParseFrom(argv, 2, a1) == ParseFrom(argv, 3, a2);
  }

  /** A path after a building or serving command is the project path. */
  lemma CommandThenPath(program: string, word: string, path: string)
    requires word in PATH_COMMANDS && !IsFlag(path)
    ensures Parsed([program, word, path]) == Ok(Initial.(command := word, projectPath := Some(path)))
  {
    var argv := [program, word, path];
    assert !IsFlag(word);
    var a1 := Initial.(command := word);
    var a2 := Initial.(command := word, projectPath := Some(path));
    assert Parsed(argv) == ParseFrom(argv, 2, a1);
    assert ParseFrom(argv, 2, a1) == ParseFrom(argv, 3, a2);
  }

  /** --port followed by a numeral sets the port and skips the numeral. */
  lemma PortFlag(program: string, n: nat)
    requires n <= INT_MAX
    ensures Parsed([program, "--port", NatToString(n)]) == Ok(Initial.(port := Some(n)))
  {
    StoiOfNatToString(n);
    var argv := [program, "--port", NatToString(n)];
    assert IsFlag(argv[1]) && Named(argv[1]) == Port;
    assert Flag("--port", Some(NatToString(n)), Initial) == Ok((Initial.(port := Some(n)), 2));
    assert Parsed(argv) == ParseFrom(argv, 3, Initial.(port := Some(n)));
  }

  // ---------------------------------------------------------------------
  // validate and the env helpers

  const PORT_RANGE_ERROR := "Port must be between 1024 and 65535"
  const VERBOSE_QUIET_ERROR := "Cannot use both --verbose and --quiet flags"

  /** ArgumentParser::validate, with the outcome of its filesystem checks
      given: "" when every check passes. */
  function Validate(args: Arguments, filesystemError: string): (r: string)
    ensures r == "" <==>
      (args.port.None? || 1024 <= args.port.value <= 65535) && !(args.verbose && args.quiet) && filesystemError == ""
    ensures args.port.Some? && !(1024 <= args.port.value <= 65535) ==> r == PORT_RANGE_ERROR
    ensures (args.port.None? || 1024 <= args.port.value <= 65535) && args.verbose && args.quiet ==> r == VERBOSE_QUIET_ERROR
  {
    if args.port.Some? && (args.port.value < 1024 || args.port.value > 65535) then PORT_RANGE_ERROR
    else if args.verbose && args.quiet then VERBOSE_QUIET_ERROR
    else filesystemError
  }

  /** get_server_port with CHISEL_DEV_PORT's value. */
  function ServerPort(args: Arguments, envPort: Option<string>): (r: int)
    ensures args.port.Some? ==> r == args.port.value
    ensures args.port.None? ==> 1024 <= r <= 65535
    ensures args.port.None? && envPort.Some? && Stoi(envPort.value).Some? && 1024 <= Stoi(envPort.value).value <= 65535 ==>
      r == Stoi(envPort.value).value
    ensures args.port.None? && (envPort.None? || Stoi(envPort.value).None? || !(1024 <= Stoi(envPort.value).value <= 65535)) ==>
      r == DEFAULT_PORT
  {
    if args.port.Some? then args.port.value
    else if envPort.Some? && Stoi(envPort.value).Some? && 1024 <= Stoi(envPort.value).value <= 65535 then Stoi(envPort.value).value
    else DEFAULT_PORT
  }

  /** get_server_host with CHISEL_DEV_HOST's value. */
  function ServerHost(args: Arguments, envHost: Option<string>): (r: string)
    ensures args.host.Some? ==> r == args.host.value
    ensures args.host.None? && envHost.Some? ==> r == envHost.value
    ensures args.host.None? && envHost.None? ==> r == DEFAULT_HOST
  {
    if args.host.Some? then args.host.value
    else if envHost.Some? then envHost.value
    else DEFAULT_HOST
  }

  /** is_verbose_enabled with CHISEL_VERBOSE's value. */
  function VerboseEnabled(value: Option<string>): bool {
    value.Some? && Chars.Lower(value.value) in Config.TRUE_WORDS
  }

  /** is_verbose_enabled is get_env_bool with a false default: only a true
      word, in any case, enables it. */
  lemma VerboseIsEnvBool(value: Option<string>)
    ensures VerboseEnabled(value) == Config.EnvBool(value, false)
  {
  }
}
