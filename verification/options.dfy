/** The command line of 'main': a left-to-right fold over the arguments
    after the program name into a configuration, then two checks on
    combinations of options. */
module Options {
  import opened Limits
  import opened Results

  /** What the option loop gathers: print a witness, quiet mode, the
      verbose level, logging, and the input path. */
  datatype Config = Config(printWitness: bool, quiet: bool, verbose: int, logging: bool, path: Option<string>)

  /** The configuration before the first argument: witness printing on,
      not quiet, verbose level 1, no logging, no path. */
  const Default := Config(true, false, 1, false, None)

  /** The fatal configuration errors. */
  datatype OptionError =
    | NoLoggingSupport
    | InvalidOption(arg: string)
    | MultipleFiles(first: string, second: string)
    | QuietAndLog
    | QuietAndVerbose

  /** How argument processing ends: the usage text or the version is
      printed and the program exits, an error is reported, or the
      configuration is complete. */
  datatype Outcome = Usage | Version | Rejected(error: OptionError) | Accepted(config: Config)

  /** Which branch of the loop an argument takes. */
  datatype Kind = Help | ShowVersion | NoWitness | Quiet | Verbose | Log | Unknown | File

  /** The ten option strings the loop recognizes. */
  const KnownOptions: set<string> :=
    {"-h", "--version", "-n", "--no-witness", "-q", "--quiet", "-v", "--verbose", "-l", "--log"}

  function KindOf(arg: string): Kind {
    if arg == "-h" then Help
    else if arg == "--version" then ShowVersion
    else if arg == "-n" || arg == "--no-witness" then NoWitness
    else if arg == "-q" || arg == "--quiet" then Quiet
    else if arg == "-v" || arg == "--verbose" then Verbose
    else if arg == "-l" || arg == "--log" then Log
    else if |arg| > 0 && arg[0] == '-' then Unknown
    else File
  }

  /** 'verbose += (verbose < INT_MAX)'. */
  function Increment(verbose: int): int {
    verbose + (if verbose < INT_MAX then 1 else 0)
  }

  /** One iteration of the loop.  withLog says whether the solver was
      built with logging support. */
  function Step(cfg: Config, arg: string, withLog: bool): (r: Outcome)
    ensures r.Accepted? <==> KindOf(arg) in {NoWitness, Quiet, Verbose} || (KindOf(arg) == Log && withLog) || (KindOf(arg) == File && cfg.path.None?)
    ensures r == Usage <==> arg == "-h"
    ensures r == Version <==> arg == "--version"
    ensures r == Rejected(NoLoggingSupport) <==> (arg == "-l" || arg == "--log") && !withLog
    ensures r == Rejected(InvalidOption(arg)) <==> KindOf(arg) == Unknown
    ensures r.Rejected? && r.error.MultipleFiles? <==> KindOf(arg) == File && cfg.path.Some?
    ensures r.Rejected? && r.error.MultipleFiles? ==> r.error == MultipleFiles(cfg.path.value, arg)
    ensures arg == "-n" || arg == "--no-witness" ==> r == Accepted(cfg.(printWitness := false))
    ensures arg == "-q" || arg == "--quiet" ==> r == Accepted(cfg.(quiet := true))
    ensures arg == "-v" || arg == "--verbose" ==>
              r == Accepted(cfg.(verbose := cfg.verbose + if cfg.verbose < INT_MAX then 1 else 0))
    ensures (arg == "-l" || arg == "--log") && withLog ==> r == Accepted(cfg.(logging := true))
    ensures r == Rejected(InvalidOption(arg)) <==> |arg| > 0 && arg[0] == '-' && arg !in KnownOptions
    ensures (|arg| == 0 || arg[0] != '-') && cfg.path.None? ==> r == Accepted(cfg.(path := Some(arg)))
    ensures (|arg| == 0 || arg[0] != '-') && cfg.path.Some? ==> r == Rejected(MultipleFiles(cfg.path.value, arg))
  {
    match KindOf(arg)
    case Help => Usage
    case ShowVersion => Version
    case NoWitness => Accepted(cfg.(printWitness := false))
    case Quiet => Accepted(cfg.(quiet := true))
    case Verbose => Accepted(cfg.(verbose := Increment(cfg.verbose)))
    case Log => if withLog then Accepted(cfg.(logging := true)) else Rejected(NoLoggingSupport)
    case Unknown => Rejected(InvalidOption(arg))
    case File => if cfg.path.Some? then Rejected(MultipleFiles(cfg.path.value, arg)) else Accepted(cfg.(path := Some(arg)))
  }

  /** The loop over the arguments; the first argument that does not
      continue the loop decides the outcome. */
  function Fold(args: seq<string>, cfg: Config, withLog: bool): Outcome
    decreases |args|
  {
    if |args| == 0 then Accepted(cfg)
    else
      match Step(cfg, args[0], withLog)
      case Accepted(next) => Fold(args[1..], next, withLog)
      case stop => stop
  }

  /** The checks after the loop. */
  function Check(cfg: Config, withLog: bool): (r: Outcome)
    ensures r.Accepted? || r.Rejected?
    ensures r.Accepted? ==> r.config == cfg
    ensures r.Rejected? <==> (withLog && cfg.quiet && cfg.logging) || (cfg.quiet && cfg.verbose > 1)
    ensures withLog && cfg.quiet && cfg.logging ==> r == Rejected(QuietAndLog)
    ensures r == Rejected(QuietAndVerbose) <==> cfg.quiet && cfg.verbose > 1 && !(withLog && cfg.logging)
  {
    if withLog && cfg.quiet && cfg.logging then Rejected(QuietAndLog)
    else if cfg.quiet && cfg.verbose > 1 then Rejected(QuietAndVerbose)
    else Accepted(cfg)
  }

  /** The whole command line: the loop from the default configuration,
      then the checks. */
  function Arguments(args: seq<string>, withLog: bool): Outcome {
    match Fold(args, Default, withLog)
    case Accepted(cfg) => Check(cfg, withLog)
    case stop => stop
  }

  /** The number of arguments of kind k. */
  function Count(args: seq<string>, k: Kind): nat
    decreases |args|
  {
    if |args| == 0 then 0 else (if KindOf(args[0]) == k then 1 else 0) + Count(args[1..], k)
  }

  /** Every argument continues the loop regardless of the others: a known
      flag, a path, or '-l' when logging is supported. */
  predicate AllKnown(args: seq<string>, withLog: bool)
    decreases |args|
  {
    |args| == 0 || ((KindOf(args[0]) in {NoWitness, Quiet, Verbose, File} || (KindOf(args[0]) == Log && withLog)) && AllKnown(args[1..], withLog))
  }

  /** The first path among the arguments. */
  function FirstFile(args: seq<string>): Option<string>
    decreases |args|
  {
    if |args| == 0 then None else if KindOf(args[0]) == File then Some(args[0]) else FirstFile(args[1..])
  }

  /** The verbose level after n increments from v, saturated at INT_MAX. */
  function Saturated(v: int, n: nat): int {
    if v + n <= INT_MAX then v + n else if v <= INT_MAX then INT_MAX else v
  }

  /** The loop as a reference definition: it accepts exactly the argument
      lists of known options with at most one path in total. */
  lemma {:induction false} FoldAccepts(args: seq<string>, cfg: Config, withLog: bool)
    ensures Fold(args, cfg, withLog).Accepted? <==>
              AllKnown(args, withLog) && Count(args, File) + (if cfg.path.Some? then 1 else 0) <= 1
    decreases |args|
  {
    if |args| > 0 {
      match Step(cfg, args[0], withLog)
      case Accepted(next) =>
        FoldAccepts(args[1..], next, withLog);
      case _ =>
    }
  }

  /** What an accepted loop leaves in the configuration: the flags seen,
      the verbose level raised once per '-v' up to INT_MAX, and the one
      path. */
  lemma {:induction false} FoldConfig(args: seq<string>, cfg: Config, withLog: bool)
    requires Fold(args, cfg, withLog).Accepted?
    ensures Fold(args, cfg, withLog).config ==
              Config(cfg.printWitness && Count(args, NoWitness) == 0,
                     cfg.quiet || Count(args, Quiet) > 0,
                     Saturated(cfg.verbose, Count(args, Verbose)),
                     cfg.logging || Count(args, Log) > 0,
                     if cfg.path.Some? then cfg.path else FirstFile(args))
    decreases |args|
  {
    if |args| > 0 {
      StepConfig(cfg, args[0], withLog);
      FoldConfig(args[1..], Step(cfg, args[0], withLog).config, withLog);
      SaturatedStep(cfg.verbose, Count(args[1..], Verbose));
    }
  }

  /** An argument that continues the loop changes the one field its kind names. */
  lemma StepConfig(cfg: Config, arg: string, withLog: bool)
    requires Step(cfg, arg, withLog).Accepted?
    ensures var k := KindOf(arg);
            Step(cfg, arg, withLog).config ==
              Config(cfg.printWitness && k != NoWitness, cfg.quiet || k == Quiet,
                     if k == Verbose then Increment(cfg.verbose) else cfg.verbose,
                     cfg.logging || k == Log, if k == File then Some(arg) else cfg.path)
  {
  }

  /** One more increment, counted first or applied first, gives the same level. */
  lemma SaturatedStep(v: int, n: nat)
    ensures Saturated(Increment(v), n) == Saturated(v, n + 1)
  {
  }

  /** The loop reads the arguments left to right: splitting the list
      splits the fold, and an argument that stops the loop makes the
      arguments after it irrelevant. */
  lemma {:induction false} FoldAppend(a: seq<string>, b: seq<string>, cfg: Config, withLog: bool)
    ensures Fold(a + b, cfg, withLog) ==
              match Fold(a, cfg, withLog)
              case Accepted(next) => Fold(b, next, withLog)
              case stop => stop
    decreases |a|
  {
    if |a| == 0 {
      assert a + b == b;
    } else {
      assert (a + b)[0] == a[0] && (a + b)[1..] == a[1..] + b;
      match Step(cfg, a[0], withLog)
      case Accepted(next) =>
        FoldAppend(a[1..], b, next, withLog);
      case _ =>
    }
  }

  /** '-h' and '--version' end processing at once, whatever follows them,
      once the arguments before them were accepted. */
  lemma ExitsAtOnce(a: seq<string>, x: string, b: seq<string>, withLog: bool)
    requires Fold(a, Default, withLog).Accepted?
    requires x == "-h" || x == "--version"
    ensures Arguments(a + [x] + b, withLog) == (if x == "-h" then Usage else Version)
  {
    FoldAppend(a, [x] + b, Default, withLog);
    assert a + [x] + b == a + ([x] + b);
    assert ([x] + b)[0] == x;
  }

  /** A second path is reported together with the first. */
  lemma SecondFile(a: seq<string>, x: string, b: seq<string>, withLog: bool, first: string)
    requires Fold(a, Default, withLog).Accepted? && FirstFile(a) == Some(first)
    requires KindOf(x) == File
    ensures Arguments(a + [x] + b, withLog) == Rejected(MultipleFiles(first, x))
  {
    FoldConfig(a, Default, withLog);
    FoldAppend(a, [x] + b, Default, withLog);
    assert a + [x] + b == a + ([x] + b);
    assert ([x] + b)[0] == x;
  }

  /** A dash-prefixed argument that is no option is reported, once the
      arguments before it were accepted. */
  lemma UnknownOption(a: seq<string>, x: string, b: seq<string>, withLog: bool)
    requires Fold(a, Default, withLog).Accepted?
    requires KindOf(x) == Unknown
    ensures Arguments(a + [x] + b, withLog) == Rejected(InvalidOption(x))
  {
    FoldAppend(a, [x] + b, Default, withLog);
    assert a + [x] + b == a + ([x] + b);
    assert ([x] + b)[0] == x;
  }

  /** '-l' in a solver built without logging support is reported, once
      the arguments before it were accepted. */
  lemma LogWithoutSupport(a: seq<string>, x: string, b: seq<string>)
    requires Fold(a, Default, false).Accepted?
    requires x == "-l" || x == "--log"
    ensures Arguments(a + [x] + b, false) == Rejected(NoLoggingSupport)
  {
    FoldAppend(a, [x] + b, Default, false);
    assert a + [x] + b == a + ([x] + b);
    assert ([x] + b)[0] == x;
  }

  /** The whole command line is accepted exactly when every argument is a
      known option or a path, there is at most one path, '--quiet' is not
      combined with '--verbose', nor with '--log'; the verbose level is
      then one more than the number of '-v', saturated at INT_MAX. */
  lemma ArgumentsAccepted(args: seq<string>, withLog: bool)
    ensures Arguments(args, withLog).Accepted? <==>
              && AllKnown(args, withLog) && Count(args, File) <= 1
              && !(Count(args, Quiet) > 0 && Count(args, Verbose) > 0)
              && !(withLog && Count(args, Quiet) > 0 && Count(args, Log) > 0)
    ensures Arguments(args, withLog).Accepted? ==>
              && Arguments(args, withLog).config.verbose == Saturated(1, Count(args, Verbose))
              && Arguments(args, withLog).config.path == FirstFile(args)
              && (Arguments(args, withLog).config.printWitness <==> Count(args, NoWitness) == 0)
  {
    FoldAccepts(args, Default, withLog);
    if Fold(args, Default, withLog).Accepted? {
      FoldConfig(args, Default, withLog);
    }
  }

  /** '-v' saturates: the level never exceeds INT_MAX, however many
      times it is given. */
  lemma VerboseSaturates(n: nat)
    ensures Saturated(1, n) <= INT_MAX
    ensures n < INT_MAX ==> Saturated(1, n) == 1 + n
  {
  }
}
