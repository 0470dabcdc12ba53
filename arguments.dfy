/**
 * `checkParameters`: the decision table from the command line to the run's
 * settings, an exit with code 0 or 2, falling through without a decision,
 * or the exception `os.makedirs` raises when it cannot create the
 * destination. `getopt.gnu_getopt`'s result, the directory tests on the two
 * positional arguments and whether `os.makedirs` can create the destination
 * are inputs.
 */
module Arguments {
  import opened PyStr
  import opened PyInt
  import opened PyPath

  /** The script's global `settings` dictionary. */
  datatype Settings = Settings(
    copyLyrics: bool,
    scaleCover: bool,
    coverScale: int,
    convertCover: bool,
    generateLogfile: bool,
    replaceFiles: bool)

  /** The dictionary's initial contents. */
  const Defaults := Settings(false, false, 0, false, true, false)

  /** One `(option, value)` pair from `gnu_getopt`. */
  datatype Opt = Opt(name: string, value: string)

  /** What `getopt.gnu_getopt` gave: an error, or the options and the other arguments. */
  datatype Getopt = GetoptError | Parsed(options: seq<Opt>, positionals: seq<string>)

  /**
   * `os.path.isdir` on the first two positional arguments, `os.path.exists`
   * on the second, and whether `os.makedirs` on the second would succeed
   * rather than raise (it raises on "" or under an existing file, say).
   */
  datatype PathFacts = PathFacts(sourceIsDir: bool, destIsDir: bool, destExists: bool, destCreatable: bool)

  /**
   * What is printed before exiting. `Help(None)` is the usage text printed
   * without `format`, so with its `{0}` placeholder left in; `Help(Some(p))` is
   * the usage text naming the program `p`.
   */
  datatype Message =
    | Help(program: Option<string>)
    | Version
    | InvalidScale(option: string, value: string)
    | InvalidPaths
    | BadOption

  /** `Raised`: `os.makedirs` raised, and the script ends with a traceback and exit status 1. */
  datatype Decision =
    | Proceed(settings: Settings, source: string, dest: string)
    | Exit(code: int, message: Message)
    | FallThrough
    | Raised

  /** The decision, and whether `os.makedirs` created the destination on the way. */
  datatype Checked = Checked(decision: Decision, createdDest: bool)

  predicate IsHelp(n: string) { n == "-h" || n == "--help" }
  predicate IsVersion(n: string) { n == "-v" || n == "--version" }
  predicate IsLyrics(n: string) { n == "-l" || n == "--copy-lyrics" }
  predicate IsScale(n: string) { n == "-s" || n == "--scale-cover" }
  predicate IsConvert(n: string) { n == "-c" || n == "--convert-cover" }
  predicate IsNoLog(n: string) { n == "-n" || n == "--no-log-file" }

  /** The test on a `--scale-cover` value: `isint(val) and val != "" and int(val) != 0`. */
  predicate ValidScale(v: string) {
    IsInt(v) && v != "" && ParseInt(v).value != 0
  }

  /** One turn of the option loop: carry on with new settings, or stop with an exit code. */
  datatype Applied = Continue(settings: Settings) | Stop(code: int, message: Message)

  function ApplyOption(s: Settings, o: Opt): Applied {
    if IsHelp(o.name) then Stop(0, Help(None))
    else if IsVersion(o.name) then Stop(0, Version)
    else if IsLyrics(o.name) then Continue(s.(copyLyrics := true))
    else if IsScale(o.name) then
      if ValidScale(o.value) then Continue(s.(scaleCover := true, coverScale := ParseInt(o.value).value))
      else Stop(2, InvalidScale(o.name, o.value))
    else if IsConvert(o.name) then Continue(s.(convertCover := true))
    else if IsNoLog(o.name) then Continue(s.(generateLogfile := false))
    else Continue(s)
  }

  /** The option loop of the branch with two valid directories, in the order getopt gave. */
  function ApplyOptions(s: Settings, opts: seq<Opt>): Applied
    decreases opts
  {
    if opts == [] then Continue(s)
    else
      match ApplyOption(s, opts[0])
      case Continue(s') => ApplyOptions(s', opts[1..])
      case stop => stop
  }

  /** The option loop of the branch without positional arguments: only help and version act. */
  function FirstHelpOrVersion(program: string, opts: seq<Opt>): Option<Message> {
    if opts == [] then None
    else if IsHelp(opts[0].name) then Some(Help(Some(PathLeaf(program))))
    else if IsVersion(opts[0].name) then Some(Version)
    else FirstHelpOrVersion(program, opts[1..])
  }

  /** The first branch's test reaches `os.makedirs`: two arguments, a source directory, and a destination that does not exist. */
  predicate MakesDestination(pos: seq<string>, facts: PathFacts) {
    |pos| >= 2 && facts.sourceIsDir && !facts.destIsDir && !facts.destExists
  }

  /**
   * The whole table. The first branch's test is
   * `isdir(a0) and (isdir(a1) or (not exists(a1) and makedirs(a1)))`; since
   * `os.makedirs` returns `None`, a missing destination is created and the
   * test still fails; when `os.makedirs` raises, the exception ends the script.
   */
  function Check(program: string, g: Getopt, facts: PathFacts): Checked {
    match g
    case GetoptError => Checked(Exit(2, BadOption), false)
    case Parsed(opts, pos) =>
      if |pos| >= 2 && facts.sourceIsDir && facts.destIsDir then
        match ApplyOptions(Defaults, opts)
        case Continue(s) => Checked(Proceed(s, pos[0], pos[1]), false)
        case Stop(code, m) => Checked(Exit(code, m), false)
      else if |pos| == 0 then
        if |opts| > 0 then
          match FirstHelpOrVersion(program, opts)
          case Some(m) => Checked(Exit(0, m), false)
          case None => Checked(FallThrough, false)
        else Checked(Exit(0, Help(Some(PathLeaf(program)))), false)
      else if MakesDestination(pos, facts) && !facts.destCreatable then Checked(Raised, false)
      else Checked(Exit(2, InvalidPaths), MakesDestination(pos, facts))
  }

  /** `checkParameters()`, with its two option loops. */
  method CheckParameters(program: string, g: Getopt, facts: PathFacts) returns (c: Checked)
    ensures c == Check(program, g, facts)
  {
    if g.GetoptError? {
      return Checked(Exit(2, BadOption), false);
    }
    var optionArgs, otherArgs := g.options, g.positionals;
    var created := false;
    if |otherArgs| >= 2 && facts.sourceIsDir && !facts.destIsDir && !facts.destExists {
      if !facts.destCreatable {
        return Checked(Raised, false);
      }
      // os.makedirs(other_args[1]) runs and returns None
      created := true;
    }
    if |otherArgs| >= 2 && facts.sourceIsDir && facts.destIsDir {
      var settings := Defaults;
      var i := 0;
      while i < |optionArgs|
        invariant 0 <= i <= |optionArgs|
        invariant ApplyOptions(Defaults, optionArgs) == ApplyOptions(settings, optionArgs[i..])
      {
        var arg, val := optionArgs[i].name, optionArgs[i].value;
        assert optionArgs[i..][1..] == optionArgs[i + 1..];
        if IsHelp(arg) {
          return Checked(Exit(0, Help(None)), false);
        } else if IsVersion(arg) {
          return Checked(Exit(0, Version), false);
        } else if IsLyrics(arg) {
          settings := settings.(copyLyrics := true);
        } else if IsScale(arg) {
          if IsInt(val) && val != "" && ParseInt(val).value != 0 {
            settings := settings.(scaleCover := true, coverScale := ParseInt(val).value);
          } else {
            return Checked(Exit(2, InvalidScale(arg, val)), false);
          }
        } else if IsConvert(arg) {
          settings := settings.(convertCover := true);
        } else if IsNoLog(arg) {
          settings := settings.(generateLogfile := false);
        }
        i := i + 1;
      }
      assert optionArgs[|optionArgs|..] == [];
      return Checked(Proceed(settings, otherArgs[0], otherArgs[1]), created);
    } else if |otherArgs| == 0 {
      if |optionArgs| > 0 {
        var i := 0;
        while i < |optionArgs|
          invariant 0 <= i <= |optionArgs|
          invariant FirstHelpOrVersion(program, optionArgs) == FirstHelpOrVersion(program, optionArgs[i..])
        {
          var arg := optionArgs[i].name;
          assert optionArgs[i..][1..] == optionArgs[i + 1..];
          if IsHelp(arg) {
            return Checked(Exit(0, Help(Some(PathLeaf(program)))), created);
          } else if IsVersion(arg) {
            return Checked(Exit(0, Version), created);
          }
          i := i + 1;
        }
        assert optionArgs[|optionArgs|..] == [];
        return Checked(FallThrough, created);
      } else {
        return Checked(Exit(0, Help(Some(PathLeaf(program)))), created);
      }
    } else {
      return Checked(Exit(2, InvalidPaths), created);
    }
  }

  /** An option that ends the option loop. */
  predicate Stops(o: Opt) {
    IsHelp(o.name) || IsVersion(o.name) || (IsScale(o.name) && !ValidScale(o.value))
  }

  /** The exit an option that ends the loop causes. */
  function StopOf(o: Opt): Applied {
    if IsHelp(o.name) then Stop(0, Help(None))
    else if IsVersion(o.name) then Stop(0, Version)
    else Stop(2, InvalidScale(o.name, o.value))
  }

  /**
   * The option loop runs to the end exactly when no option ends it, and
   * otherwise exits as the first such option says, whatever comes after.
   */
  lemma {:induction false} ApplyOptionsStops(s: Settings, opts: seq<Opt>)
    ensures ApplyOptions(s, opts).Continue? <==> forall k :: 0 <= k < |opts| ==> !Stops(opts[k])
    ensures forall k :: 0 <= k < |opts| && Stops(opts[k]) && (forall j :: 0 <= j < k ==> !Stops(opts[j])) ==>
      ApplyOptions(s, opts) == StopOf(opts[k])
    decreases opts
  {
    if opts != [] {
      match ApplyOption(s, opts[0])
      case Continue(s') =>
        ApplyOptionsStops(s', opts[1..]);
        assert forall k :: 1 <= k < |opts| ==> opts[k] == opts[1..][k - 1];
      case _ =>
    }
  }

  /** `scale_cover` is set exactly when `cover_scale` is nonzero. */
  predicate ScaleConsistent(s: Settings) {
    s.scaleCover <==> s.coverScale != 0
  }

  /** The option loop keeps `scale_cover` and `cover_scale` consistent. */
  lemma {:induction false} ApplyOptionsKeepsScaleConsistent(s: Settings, opts: seq<Opt>)
    requires ScaleConsistent(s)
    ensures ApplyOptions(s, opts).Continue? ==> ScaleConsistent(ApplyOptions(s, opts).settings)
    decreases opts
  {
    if opts != [] {
      match ApplyOption(s, opts[0])
      case Continue(s') => ApplyOptionsKeepsScaleConsistent(s', opts[1..]);
      case _ =>
    }
  }

  /** The exit codes are 0 and 2 only. */
  lemma {:induction false} ApplyOptionsExitCodes(s: Settings, opts: seq<Opt>)
    ensures ApplyOptions(s, opts).Stop? ==> ApplyOptions(s, opts).code in {0, 2}
    decreases opts
  {
    if opts != [] {
      match ApplyOption(s, opts[0])
      case Continue(s') => ApplyOptionsExitCodes(s', opts[1..]);
      case _ =>
    }
  }

  lemma {:induction false} FirstHelpOrVersionIsNone(program: string, opts: seq<Opt>)
    ensures FirstHelpOrVersion(program, opts).None? <==>
      forall k :: 0 <= k < |opts| ==> !IsHelp(opts[k].name) && !IsVersion(opts[k].name)
  {
    if opts != [] {
      FirstHelpOrVersionIsNone(program, opts[1..]);
      assert forall k :: 1 <= k < |opts| ==> opts[k] == opts[1..][k - 1];
    }
  }

  /**
   * The settings the run proceeds with: two positional arguments, both
   * directories, and consistent scale settings; the table exits only with
   * code 0 or 2; it raises exactly when `os.makedirs` is reached and fails.
   */
  lemma CheckOutcomes(program: string, g: Getopt, facts: PathFacts)
    ensures Check(program, g, facts).decision.Proceed? ==>
      g.Parsed? && |g.positionals| >= 2 && facts.sourceIsDir && facts.destIsDir &&
      ScaleConsistent(Check(program, g, facts).decision.settings)
    ensures Check(program, g, facts).decision.Exit? ==> Check(program, g, facts).decision.code in {0, 2}
    ensures Check(program, g, facts).decision == Raised <==>
      g.Parsed? && MakesDestination(g.positionals, facts) && !facts.destCreatable
  {
    if g.Parsed? {
      ApplyOptionsKeepsScaleConsistent(Defaults, g.options);
      ApplyOptionsExitCodes(Defaults, g.options);
    }
  }

  /**
   * Options without positional arguments and without `-h`/`-v` decide
   * nothing: `checkParameters` returns nothing and the script carries on.
   */
  lemma FallThroughExactly(program: string, g: Getopt, facts: PathFacts)
    ensures Check(program, g, facts).decision == FallThrough <==>
      g.Parsed? && |g.positionals| == 0 && |g.options| > 0 &&
      forall k :: 0 <= k < |g.options| ==> !IsHelp(g.options[k].name) && !IsVersion(g.options[k].name)
  {
    if g.Parsed? {
      FirstHelpOrVersionIsNone(program, g.options);
      ApplyOptionsKeepsScaleConsistent(Defaults, g.options);
    }
  }

  /**
   * A missing destination is created, and the arguments are still rejected
   * with code 2; when it cannot be created, the script raises and nothing
   * is created.
   */
  lemma MissingDestinationCreatedYetRejected(program: string, opts: seq<Opt>, pos: seq<string>, destIsDir: bool, creatable: bool)
    requires |pos| >= 2
    ensures Check(program, Parsed(opts, pos), PathFacts(true, destIsDir, false, creatable)) ==
      if destIsDir then Check(program, Parsed(opts, pos), PathFacts(true, true, false, creatable))
      else if creatable then Checked(Exit(2, InvalidPaths), true)
      else Checked(Raised, false)
  {
  }

  /**
   * `--scale-cover v` (either spelling) with two valid directories: the run
   * proceeds with `cover_scale = int(v)` exactly when `int(v)` parses and is
   * nonzero; a zero, empty or non-integer value exits with code 2.
   */
  lemma ScaleCoverAccepted(program: string, name: string, v: string, a: string, b: string)
    requires IsScale(name)
    ensures var d := Check(program, Parsed([Opt(name, v)], [a, b]), PathFacts(true, true, true, true)).decision;
      match ParseInt(v)
      case Some(n) =>
        if n != 0 then d == Proceed(Defaults.(scaleCover := true, coverScale := n), a, b)
        else d == Exit(2, InvalidScale(name, v))
      case None => d == Exit(2, InvalidScale(name, v))
  {
    var o := Opt(name, v);
    CheckWithDirectories(program, [o], a, b);
    SingleOption(Defaults, o);
    ScaleOption(Defaults, o);
    ValidScaleMeans(v);
  }

  /** The two spellings of `--scale-cover` are no other option's. */
  lemma ScaleNameIsDistinct(n: string)
    requires IsScale(n)
    ensures !IsHelp(n) && !IsVersion(n) && !IsLyrics(n)
  {
    if n == "-s" {
      assert n[1] == 's';
    } else {
      assert n[2] == 's';
    }
  }

  /** The step a `--scale-cover` option makes. */
  lemma ScaleOption(s: Settings, o: Opt)
    requires IsScale(o.name)
    ensures ApplyOption(s, o) ==
      if ValidScale(o.value) then Continue(s.(scaleCover := true, coverScale := ParseInt(o.value).value))
      else Stop(2, InvalidScale(o.name, o.value))
  {
    ScaleNameIsDistinct(o.name);
  }

  /** The value test is: `int(value)` parses and is nonzero (the empty string never parses). */
  lemma ValidScaleMeans(v: string)
    ensures ValidScale(v) <==> ParseInt(v).Some? && ParseInt(v).value != 0
  {
    if v == "" {
      assert Trim(v) == "";
    }
  }

  /** With two arguments that are directories, the table is the option loop. */
  lemma CheckWithDirectories(program: string, opts: seq<Opt>, a: string, b: string)
    ensures Check(program, Parsed(opts, [a, b]), PathFacts(true, true, true, true)).decision ==
      match ApplyOptions(Defaults, opts)
      case Continue(s) => Proceed(s, a, b)
      case Stop(code, m) => Exit(code, m)
  {
  }

  /** The option loop over one option is that option's step. */
  lemma SingleOption(s: Settings, o: Opt)
    ensures ApplyOptions(s, [o]) == ApplyOption(s, o)
  {
    assert [o][1..] == [];
    match ApplyOption(s, o)
    case Continue(s') => assert ApplyOptions(s', []) == Continue(s');
    case _ =>
  }

  /** The last `--scale-cover` wins: an accepted run uses the value of the last one. */
  lemma {:induction false} LastScaleWins(s: Settings, opts: seq<Opt>, k: int)
    requires 0 <= k < |opts| && IsScale(opts[k].name)
    requires forall j :: k < j < |opts| ==> !IsScale(opts[j].name)
    requires ApplyOptions(s, opts).Continue?
    ensures ParseInt(opts[k].value).Some?
    ensures ApplyOptions(s, opts).settings.coverScale == ParseInt(opts[k].value).value
    ensures ApplyOptions(s, opts).settings.scaleCover
    decreases opts
  {
    ApplyOptionsCons(s, opts);
    var s' := ApplyOption(s, opts[0]).settings;
    var rest := opts[1..];
    if k > 0 {
      assert rest[k - 1] == opts[k];
      assert forall j :: k - 1 < j < |rest| ==> !IsScale(rest[j].name) by {
        forall j | k - 1 < j < |rest|
          ensures !IsScale(rest[j].name)
        {
          assert rest[j] == opts[j + 1];
        }
      }
      LastScaleWins(s', rest, k - 1);
    } else {
      ScaleStep(s, opts[0]);
      assert forall j :: 0 <= j < |rest| ==> !IsScale(rest[j].name) by {
        forall j | 0 <= j < |rest|
          ensures !IsScale(rest[j].name)
        {
          assert rest[j] == opts[j + 1];
        }
      }
      ScaleUntouched(s', rest);
    }
  }

  /** A loop that ran to the end ran its first option to completion, then the rest. */
  lemma ApplyOptionsCons(s: Settings, opts: seq<Opt>)
    requires opts != [] && ApplyOptions(s, opts).Continue?
    ensures ApplyOption(s, opts[0]).Continue?
    ensures ApplyOptions(s, opts) == ApplyOptions(ApplyOption(s, opts[0]).settings, opts[1..])
  {
  }

  /** An accepted `--scale-cover` value sets both scale settings from `int(value)`. */
  lemma ScaleStep(s: Settings, o: Opt)
    requires IsScale(o.name) && ApplyOption(s, o).Continue?
    ensures ParseInt(o.value).Some?
    ensures ApplyOption(s, o).settings == s.(scaleCover := true, coverScale := ParseInt(o.value).value)
  {
    ScaleOption(s, o);
  }

  /** An option other than `--scale-cover` that does not stop the loop leaves the scale settings alone. */
  lemma OtherStep(s: Settings, o: Opt)
    requires !IsScale(o.name) && ApplyOption(s, o).Continue?
    ensures ApplyOption(s, o).settings.coverScale == s.coverScale
    ensures ApplyOption(s, o).settings.scaleCover == s.scaleCover
  {
  }

  /** Options other than `--scale-cover` leave the scale settings alone. */
  lemma {:induction false} ScaleUntouched(s: Settings, opts: seq<Opt>)
    requires forall j :: 0 <= j < |opts| ==> !IsScale(opts[j].name)
    requires ApplyOptions(s, opts).Continue?
    ensures ApplyOptions(s, opts).settings.coverScale == s.coverScale
    ensures ApplyOptions(s, opts).settings.scaleCover == s.scaleCover
    decreases opts
  {
    if opts != [] {
      ApplyOptionsCons(s, opts);
      OtherStep(s, opts[0]);
      var rest := opts[1..];
      assert forall j :: 0 <= j < |rest| ==> !IsScale(rest[j].name) by {
        forall j | 0 <= j < |rest|
          ensures !IsScale(rest[j].name)
        {
          assert rest[j] == opts[j + 1];
        }
      }
      ScaleUntouched(ApplyOption(s, opts[0]).settings, rest);
    }
  }
}
