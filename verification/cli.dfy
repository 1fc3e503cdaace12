/** The command line (`main`, `parsePosition`): which arguments are accepted,
    which error each rejection reports, and at which point of the session the
    check happens. */
module Cli {
  import opened Base
  import opened Text
  import opened Position

  datatype Command = HoverCmd | DefinitionCmd | ReferencesCmd

  /** Why `main` stops with exit status 1 before running a command. */
  datatype CliError =
    | Usage                          // fewer than two arguments
    | PathUnresolved                 // filepath.Abs failed
    | FileNotFound(path: string)     // os.Stat failed on the absolute path
    | NoWorkspace                    // findGitRoot failed; it never does, as it falls back to the file's directory
    | ClientFailed                   // the server could not be started
    | InitializeFailed               // Initialize returned an error
    | UnknownCommand(name: string)
    | CommandUsage(cmd: Command)     // a known command without line and column
    | InvalidLine(text: string)
    | InvalidColumn(text: string)
    | PositionTooSmall

  /** The outcome of the steps `main` takes outside this model, as inputs: the
      absolute path (none when it cannot be resolved), whether that file
      exists, the workspace root found for it, whether the server starts, and
      whether Initialize returns without error. */
  datatype Env = Env(absPath: Option<string>, fileExists: bool, root: Option<string>, started: bool, initialized: bool)

  /** What `main` goes on to run: the command, the absolute path and the
      1-based position. */
  datatype Plan = Plan(cmd: Command, path: string, at: Pos)

  /** The command names and their aliases. */
  function ParseCommand(name: string): (r: Option<Command>)
    ensures r == Some(HoverCmd) <==> name in {"hover", "type"}
    ensures r == Some(DefinitionCmd) <==> name in {"definition", "def"}
    ensures r == Some(ReferencesCmd) <==> name in {"references", "refs"}
  {
    if name == "hover" || name == "type" then Some(HoverCmd)
    else if name == "definition" || name == "def" then Some(DefinitionCmd)
    else if name == "references" || name == "refs" then Some(ReferencesCmd)
    else None
  }

  /** A string strconv.Atoi accepts without error. */
  predicate IsNumber(s: string) {
    IsIntLiteral(s) && InInt64(LiteralValue(s))
  }

  /** parsePosition: both strings must be integers that fit Go's `int`, the
      line's error reported first, and both must be at least 1. */
  function ParsePosition(lineStr: string, colStr: string): (r: Result<Pos, CliError>)
    ensures r == Err(InvalidLine(lineStr)) <==> !IsNumber(lineStr)
    ensures r == Err(InvalidColumn(colStr)) <==> IsNumber(lineStr) && !IsNumber(colStr)
    ensures r == Err(PositionTooSmall) <==>
      IsNumber(lineStr) && IsNumber(colStr) && (LiteralValue(lineStr) < 1 || LiteralValue(colStr) < 1)
    ensures r.Ok? <==>
      IsNumber(lineStr) && IsNumber(colStr) && LiteralValue(lineStr) >= 1 && LiteralValue(colStr) >= 1
    ensures r.Ok? ==> r.value == Pos(LiteralValue(lineStr), LiteralValue(colStr)) && IsUserPos(r.value)
  {
    var line := Atoi(lineStr);
    if line.err.Some? then Err(InvalidLine(lineStr))
    else
      var col := Atoi(colStr);
      if col.err.Some? then Err(InvalidColumn(colStr))
      else if line.value < 1 || col.value < 1 then Err(PositionTooSmall)
      else Ok(Pos(line.value, col.value))
  }

  /** Every position the command line can produce is given back by printing
      its coordinates in decimal and parsing them again. */
  lemma ParsePositionFormatInt(p: Pos)
    requires IsUserPos(p)
    ensures ParsePosition(FormatInt(p.line), FormatInt(p.character)) == Ok(p)
  {
    AtoiFormatInt(p.line);
    AtoiFormatInt(p.character);
  }

  /** The errors that are detected only after the server has been started
      and initialised. */
  predicate DetectedInSession(e: CliError) {
    e.UnknownCommand? || e.CommandUsage? || e.InvalidLine? || e.InvalidColumn? || e.PositionTooSmall?
  }

  /** Every step of `main` before the command succeeded: the path resolved, the
      file exists, a workspace root was found, and the server started and
      answered the handshake. */
  predicate EnvReady(env: Env) {
    env.absPath.Some? && env.fileExists && env.root.Some? && env.started && env.initialized
  }

  /** main up to the call of the query: `args` is os.Args, program name first. */
  function Main(args: seq<string>, env: Env): (r: Result<Plan, CliError>)
    ensures r == Err(Usage) <==> |args| < 3
    ensures r.Ok? <==>
      && |args| >= 5 && env.absPath.Some? && env.fileExists && env.root.Some? && env.started && env.initialized
      && ParseCommand(args[1]).Some? && ParsePosition(args[3], args[4]).Ok?
    ensures r.Ok? ==>
      && Some(r.value.cmd) == ParseCommand(args[1])
      && Some(r.value.path) == env.absPath
      && Ok(r.value.at) == ParsePosition(args[3], args[4])
    ensures r.Err? && DetectedInSession(r.error) ==> env.started && env.initialized
    ensures r.Err? && r.error.UnknownCommand? ==> r.error.name == args[1]
    ensures |args| >= 3 && env.absPath.None? ==> r == Err(PathUnresolved)
    ensures |args| >= 3 && env.absPath.Some? && !env.fileExists ==> r == Err(FileNotFound(env.absPath.value))
    ensures |args| >= 3 && env.absPath.Some? && env.fileExists && env.root.None? ==> r == Err(NoWorkspace)
    ensures |args| >= 3 && env.absPath.Some? && env.fileExists && env.root.Some? && !env.started ==> r == Err(ClientFailed)
    ensures |args| >= 3 && env.absPath.Some? && env.fileExists && env.root.Some? && env.started && !env.initialized
      ==> r == Err(InitializeFailed)
    ensures |args| >= 3 && EnvReady(env) && ParseCommand(args[1]).None? ==> r == Err(UnknownCommand(args[1]))
    ensures |args| >= 3 && EnvReady(env) && ParseCommand(args[1]).Some? && |args| < 5
      ==> r == Err(CommandUsage(ParseCommand(args[1]).value))
    ensures |args| >= 5 && EnvReady(env) && ParseCommand(args[1]).Some? && ParsePosition(args[3], args[4]).Err?
      ==> r == Err(ParsePosition(args[3], args[4]).error)
  {
    if |args| < 3 then Err(Usage)
    else if env.absPath.None? then Err(PathUnresolved)
    else if !env.fileExists then Err(FileNotFound(env.absPath.value))
    else if env.root.None? then Err(NoWorkspace)
    else if !env.started then Err(ClientFailed)
    else if !env.initialized then Err(InitializeFailed)
    else match ParseCommand(args[1])
      case None => Err(UnknownCommand(args[1]))
      case Some(cmd) =>
        if |args| < 5 then Err(CommandUsage(cmd))
        else match ParsePosition(args[3], args[4])
          case Err(e) => Err(e)
          case Ok(at) => Ok(Plan(cmd, env.absPath.value, at))
  }

  /** A command given with too few arguments is rejected whatever its
      position would have been, and the usage error names the command. */
  lemma ShortCommandRejected(args: seq<string>, env: Env)
    requires 3 <= |args| < 5 && ParseCommand(args[1]).Some?
    requires env.absPath.Some? && env.fileExists && env.root.Some? && env.started && env.initialized
    ensures Main(args, env) == Err(CommandUsage(ParseCommand(args[1]).value))
  {
  }
}
