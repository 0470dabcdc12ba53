/**
 * The main loop of the converter: for every file the directory walk
 * yields, pick the action its extension calls for (copy an mp3, transcode
 * a flac to mp3, copy a lyrics file), perform it against the destination
 * tree, and bump exactly one of the seven counters, or none.
 *
 * Paths are lists of components relative to the source or destination
 * root, so the walk's relative path `.` is the empty list. The destination
 * tree is the set of existing files and the set of existing directories;
 * the source tree is the set of its entries. ffprobe, ffmpeg, the imaging
 * library and `shutil.copyfile` are oracles carried by each walked file.
 */
module Library {
  import opened PyStr
  import opened PyPath
  import opened CoverProbe
  import opened Arguments

  type Path = seq<string>

  /** What one ffmpeg run gave: its exit status, and whether it left a (partial) output file despite failing. */
  datatype ToolRun = ToolRun(status: int, partial: bool) {
    predicate Succeeded() { status == 0 }
    predicate LeavesOutput() { status == 0 || partial }
  }

  /**
   * The oracles for one walked file: the cover probe, the cover
   * extraction, whether the imaging library can open and save the cover,
   * the remux or transcode run, and the `copyfile` call.
   */
  datatype Tools = Tools(probe: ProbeRun, extract: ToolRun, coverOk: bool, encode: ToolRun, copy: CopyRun)

  /**
   * What one `shutil.copyfile` into an existing directory did: it raised,
   * having written part of the copy or not, or it returned, with the copy
   * in place or not.
   */
  datatype CopyRun = CopyRaises(partial: bool) | CopyReturns(lands: bool)

  /** One `(root, filename)` pair of the walk, with its oracles. */
  datatype WalkEntry = WalkEntry(dir: Path, filename: string, tools: Tools)

  /** The keys of the `counters` dictionary. */
  datatype Counter =
    | CopySuccess | CopyFailure | ConvertSuccess | ConvertFailure
    | LrcCopySuccess | LrcCopyFailure | AlreadyExists

  /**
   * The exceptions that end the script: `makedirs` under a file, a copy
   * into a missing directory, a copy that fails otherwise, an unreadable
   * cover.
   */
  datatype Crash = MakeDirsFailed | NoDestinationDirectory | CopyFailed | CoverUnreadable

  /** What happened to one walked file. */
  datatype Outcome = Ignored | NoCover | Counted(counter: Counter) | Crashed(crash: Crash)

  datatype Counters = Counters(
    copySuccess: nat, copyFailure: nat, convertSuccess: nat, convertFailure: nat,
    lrcCopySuccess: nat, lrcCopyFailure: nat, alreadyExists: nat)

  /** The destination tree and the two temporary cover files. */
  datatype Disk = Disk(files: set<Path>, dirs: set<Path>, extractedCover: bool, newCover: bool)

  datatype Step = Step(outcome: Outcome, disk: Disk)

  datatype RunResult = RunResult(counters: Counters, disk: Disk, crashed: bool)

  const NoCounts := Counters(0, 0, 0, 0, 0, 0, 0)

  /** The value of one counter. */
  function Get(c: Counters, k: Counter): nat {
    match k
    case CopySuccess => c.copySuccess
    case CopyFailure => c.copyFailure
    case ConvertSuccess => c.convertSuccess
    case ConvertFailure => c.convertFailure
    case LrcCopySuccess => c.lrcCopySuccess
    case LrcCopyFailure => c.lrcCopyFailure
    case AlreadyExists => c.alreadyExists
  }

  /** The counters in the dictionary's order. */
  function Values(c: Counters): seq<nat> {
    [c.copySuccess, c.copyFailure, c.convertSuccess, c.convertFailure,
     c.lrcCopySuccess, c.lrcCopyFailure, c.alreadyExists]
  }

  function Sum(s: seq<nat>): nat {
    if s == [] then 0 else Sum(s[..|s| - 1]) + s[|s| - 1]
  }

  /** The number of files the summary reports: every counter added up. */
  function Total(c: Counters): nat {
    c.copySuccess + c.copyFailure + c.convertSuccess + c.convertFailure +
    c.lrcCopySuccess + c.lrcCopyFailure + c.alreadyExists
  }

  /** Adding up the dictionary's values one by one gives the total. */
  lemma SumOfValues(c: Counters)
    ensures Sum(Values(c)) == Total(c)
  {
    var v := Values(c);
    assert v[..|v|] == v;
    assert v[..0] == [];
    SumPrefix(v, 7);
    SumPrefix(v, 6);
    SumPrefix(v, 5);
    SumPrefix(v, 4);
    SumPrefix(v, 3);
    SumPrefix(v, 2);
    SumPrefix(v, 1);
  }

  /** Extending a prefix by one element adds that element to the sum. */
  lemma SumPrefix(s: seq<nat>, k: int)
    requires 0 < k <= |s|
    ensures Sum(s[..k]) == Sum(s[..k - 1]) + s[k - 1]
  {
    assert s[..k][..k - 1] == s[..k - 1];
  }

  /**
   * The counter update one outcome makes: a counted outcome raises its own
   * counter by one and leaves the other six alone; any other outcome
   * changes nothing. So each file raises the total by at most one.
   */
  function Bump(c: Counters, o: Outcome): (r: Counters)
    ensures forall k :: Get(r, k) == Get(c, k) + (if o == Counted(k) then 1 else 0)
    ensures Total(r) == Total(c) + (if o.Counted? then 1 else 0)
  {
    match o
    case Counted(k) =>
      (match k
       case CopySuccess => c.(copySuccess := c.copySuccess + 1)
       case CopyFailure => c.(copyFailure := c.copyFailure + 1)
       case ConvertSuccess => c.(convertSuccess := c.convertSuccess + 1)
       case ConvertFailure => c.(convertFailure := c.convertFailure + 1)
       case LrcCopySuccess => c.(lrcCopySuccess := c.lrcCopySuccess + 1)
       case LrcCopyFailure => c.(lrcCopyFailure := c.lrcCopyFailure + 1)
       case AlreadyExists => c.(alreadyExists := c.alreadyExists + 1))
    case _ => c
  }

  /** `os.path.exists`: a file or a directory. */
  predicate Present(d: Disk, p: Path) {
    p in d.files || p in d.dirs
  }

  function Parent(p: Path): Path
    requires p != []
  {
    p[..|p| - 1]
  }

  /** Every leading part of `p`, from the root to `p` itself. */
  function Prefixes(p: Path): set<Path> {
    set k | 0 <= k <= |p| :: p[..k]
  }

  /** A tree: the root is a directory, nothing is both, and every entry's parent is a directory. */
  predicate Tree(files: set<Path>, dirs: set<Path>) {
    && [] in dirs
    && files !! dirs
    && (forall p :: p in dirs && p != [] ==> Parent(p) in dirs)
    && (forall p :: p in files ==> p != [] && Parent(p) in dirs)
  }

  predicate WellFormed(d: Disk) {
    Tree(d.files, d.dirs)
  }

  /**
   * `if not os.path.exists(newpath): os.makedirs(newpath)`: nothing when
   * the path exists; an exception when a leading part of it is a file;
   * otherwise every missing directory on the way is created.
   */
  function MakeDirs(d: Disk, dir: Path): (r: Option<Disk>)
    ensures r.None? <==> !Present(d, dir) && exists k :: 0 <= k < |dir| && dir[..k] in d.files
    ensures r.Some? ==> && r.value.files == d.files
                        && d.dirs <= r.value.dirs <= d.dirs + Prefixes(dir)
                        && r.value.extractedCover == d.extractedCover && r.value.newCover == d.newCover
                        && (dir in r.value.dirs || dir in d.files)
  {
    if Present(d, dir) then Some(d)
    else if exists k :: 0 <= k < |dir| && dir[..k] in d.files then None
    else
      assert dir[..|dir|] == dir;
      Some(d.(dirs := d.dirs + Prefixes(dir)))
  }

  /** An ffmpeg run writing `target`: the file lands when the run leaves output and the directory exists. */
  function Emit(d: Disk, dir: Path, target: Path, run: ToolRun): Disk {
    if run.LeavesOutput() && dir in d.dirs then d.(files := d.files + {target}) else d
  }

  /** The two `os.remove` calls after the cover branch. */
  function Cleanup(d: Disk): Disk {
    d.(extractedCover := false, newCover := false)
  }

  /** `name.mp3` or `name.flac` exists in the same source directory. */
  predicate HasSibling(source: set<Path>, dir: Path, name: string) {
    dir + [name + ".mp3"] in source || dir + [name + ".flac"] in source
  }

  /** Whether the cover options send an audio file through the cover branch. */
  predicate CoverOptions(cfg: Settings) {
    cfg.convertCover || cfg.scaleCover
  }

  /** The cases the loop distinguishes by the extension. */
  datatype Kind = Mp3 | Flac | Lrc | Other

  /** The extension, without its dot and compared case-sensitively, picks the case. */
  function KindOf(filename: string): (k: Kind)
    ensures k == Mp3 <==> Extension(filename) == "mp3"
    ensures k == Flac <==> Extension(filename) == "flac"
    ensures k == Lrc <==> Extension(filename) == "lrc"
  {
    var ext := Extension(filename);
    if ext == "mp3" then Mp3 else if ext == "flac" then Flac else if ext == "lrc" then Lrc else Other
  }

  /** The destination each case calls for: `newpath/filename` for mp3 and lrc, `newpath/name.mp3` for flac, none otherwise. */
  function Target(e: WalkEntry): (r: Option<Path>)
    ensures r.Some? <==> KindOf(e.filename) != Other
    ensures r.Some? ==> |r.value| == |e.dir| + 1 && r.value[..|e.dir|] == e.dir
  {
    match KindOf(e.filename)
    case Mp3 => Some(e.dir + [e.filename])
    case Lrc => Some(e.dir + [e.filename])
    case Flac => Some(e.dir + [Stem(e.filename) + ".mp3"])
    case Other => None
  }

  /**
   * The cover branch, once ffprobe found a cover: extract it to the first
   * temporary file, re-encode it to the second, then remux (mp3) or
   * transcode (flac) with it into `target`, and remove both temporary files.
   */
  function CoverStep(d: Disk, dir: Path, target: Path, t: Tools, transcode: bool): Step {
    var ok := if transcode then ConvertSuccess else CopySuccess;
    var bad := if transcode then ConvertFailure else CopyFailure;
    var extracted := d.(extractedCover := d.extractedCover || t.extract.LeavesOutput());
    if !t.extract.Succeeded() then Step(Counted(bad), Cleanup(extracted))
    else if !t.coverOk then Step(Crashed(CoverUnreadable), extracted)
    else
      var encoded := Emit(extracted.(newCover := true), dir, target, t.encode);
      Step(Counted(if t.encode.Succeeded() && dir in encoded.dirs then ok else bad), Cleanup(encoded))
  }

  /** The mp3 branch (`transcode` false) and the flac branch (`transcode` true). */
  function AudioStep(cfg: Settings, d: Disk, dir: Path, target: Path, t: Tools, transcode: bool): Step {
    if Present(d, target) then Step(Counted(AlreadyExists), d)
    else
      match MakeDirs(d, dir)
      case None => Step(Crashed(MakeDirsFailed), d)
      case Some(made) =>
        if CoverOptions(cfg) then
          if CoverCodec(t.probe) == "" then Step(NoCover, made)
          else CoverStep(made, dir, target, t, transcode)
        else if transcode then
          Step(Counted(if t.encode.Succeeded() && dir in made.dirs then ConvertSuccess else ConvertFailure),
               Emit(made, dir, target, t.encode))
        else if dir !in made.dirs then Step(Crashed(NoDestinationDirectory), made)
        else CopyStep(made, target, t.copy, CopySuccess, CopyFailure)
  }

  /**
   * `copyfile` into an existing directory, then the check that the copy
   * exists: an exception ends the script, otherwise `ok` or `bad` is
   * counted.
   */
  function CopyStep(d: Disk, target: Path, run: CopyRun, ok: Counter, bad: Counter): Step {
    match run
    case CopyRaises(partial) => Step(Crashed(CopyFailed), if partial then d.(files := d.files + {target}) else d)
    case CopyReturns(lands) =>
      if lands then Step(Counted(ok), d.(files := d.files + {target})) else Step(Counted(bad), d)
  }

  /** The lrc branch: it never creates the destination directory. */
  function LyricStep(cfg: Settings, source: set<Path>, d: Disk, dir: Path, name: string, target: Path, copy: CopyRun): Step {
    if !cfg.copyLyrics || !HasSibling(source, dir, name) then Step(Ignored, d)
    else if Present(d, target) then Step(Counted(AlreadyExists), d)
    else if dir !in d.dirs then Step(Crashed(NoDestinationDirectory), d)
    else CopyStep(d, target, copy, LrcCopySuccess, LrcCopyFailure)
  }

  /** One iteration of the inner loop over a directory's files. */
  function FileStep(cfg: Settings, source: set<Path>, d: Disk, e: WalkEntry): Step {
    match KindOf(e.filename)
    case Mp3 => AudioStep(cfg, d, e.dir, e.dir + [e.filename], e.tools, false)
    case Flac => AudioStep(cfg, d, e.dir, e.dir + [Stem(e.filename) + ".mp3"], e.tools, true)
    case Lrc => LyricStep(cfg, source, d, e.dir, Stem(e.filename), e.dir + [e.filename], e.tools.copy)
    case Other => Step(Ignored, d)
  }

  /** A walk over any per-file step: fold the steps, stopping at the first exception. */
  function Fold(step: (Disk, WalkEntry) -> Step, d: Disk, c: Counters, walk: seq<WalkEntry>): RunResult
    decreases walk
  {
    if walk == [] then RunResult(c, d, false)
    else
      var s := step(d, walk[0]);
      if s.outcome.Crashed? then RunResult(c, s.disk, true)
      else Fold(step, s.disk, Bump(c, s.outcome), walk[1..])
  }

  /** The outcomes of such a walk, up to and including a crash. */
  function Trace(step: (Disk, WalkEntry) -> Step, d: Disk, walk: seq<WalkEntry>): seq<Outcome>
    decreases walk
  {
    if walk == [] then []
    else
      var s := step(d, walk[0]);
      if s.outcome.Crashed? then [s.outcome]
      else [s.outcome] + Trace(step, s.disk, walk[1..])
  }

  /** The loop's step, for given settings and source tree. */
  function FileStepOf(cfg: Settings, source: set<Path>): (Disk, WalkEntry) -> Step {
    (d: Disk, e: WalkEntry) => FileStep(cfg, source, d, e)
  }

  /** The whole walk of the converter. */
  function RunSteps(cfg: Settings, source: set<Path>, d: Disk, c: Counters, walk: seq<WalkEntry>): RunResult {
    Fold(FileStepOf(cfg, source), d, c, walk)
  }

  /** The outcomes of the converter's walk. */
  function Outcomes(cfg: Settings, source: set<Path>, d: Disk, walk: seq<WalkEntry>): seq<Outcome> {
    Trace(FileStepOf(cfg, source), d, walk)
  }

  function CountCounted(os: seq<Outcome>): nat {
    if os == [] then 0 else (if os[0].Counted? then 1 else 0) + CountCounted(os[1..])
  }

  /** The converter's global state: the settings, the source tree, the destination tree and the counters. */
  class Converter {
    const settings: Settings
    const source: set<Path>
    var files: set<Path>
    var dirs: set<Path>
    var extractedCover: bool
    var newCover: bool
    var copySuccess: nat
    var copyFailure: nat
    var convertSuccess: nat
    var convertFailure: nat
    var lrcCopySuccess: nat
    var lrcCopyFailure: nat
    var alreadyExists: nat

    function State(): Disk
      reads this
    {
      Disk(files, dirs, extractedCover, newCover)
    }

    function Tally(): Counters
      reads this
    {
      Counters(copySuccess, copyFailure, convertSuccess, convertFailure, lrcCopySuccess, lrcCopyFailure, alreadyExists)
    }

    /** All counters start at zero; no temporary cover file exists yet. */
    constructor (settings: Settings, source: set<Path>, files: set<Path>, dirs: set<Path>)
      ensures this.settings == settings && this.source == source
      ensures State() == Disk(files, dirs, false, false)
      ensures Tally() == NoCounts
    {
      this.settings := settings;
      this.source := source;
      this.files := files;
      this.dirs := dirs;
      extractedCover := false;
      newCover := false;
      copySuccess := 0;
      copyFailure := 0;
      convertSuccess := 0;
      convertFailure := 0;
      lrcCopySuccess := 0;
      lrcCopyFailure := 0;
      alreadyExists := 0;
    }

    /** `counters[k] += 1`. */
    method Count(k: Counter)
      modifies this
      ensures Tally() == Bump(old(Tally()), Counted(k))
      ensures State() == old(State())
    {
      match k
      case CopySuccess => copySuccess := copySuccess + 1;
      case CopyFailure => copyFailure := copyFailure + 1;
      case ConvertSuccess => convertSuccess := convertSuccess + 1;
      case ConvertFailure => convertFailure := convertFailure + 1;
      case LrcCopySuccess => lrcCopySuccess := lrcCopySuccess + 1;
      case LrcCopyFailure => lrcCopyFailure := lrcCopyFailure + 1;
      case AlreadyExists => alreadyExists := alreadyExists + 1;
    }

    /** Create `dir` and its missing parents when it does not exist; false when `makedirs` would raise. */
    method EnsureDirectory(dir: Path) returns (ok: bool)
      modifies this
      ensures ok <==> MakeDirs(old(State()), dir).Some?
      ensures State() == if ok then MakeDirs(old(State()), dir).value else old(State())
      ensures Tally() == old(Tally())
    {
      if dir in files || dir in dirs {
        return true;
      }
      if exists k :: 0 <= k < |dir| && dir[..k] in files {
        return false;
      }
      dirs := dirs + Prefixes(dir);
      ok := true;
    }

    /** An ffmpeg run writing `target`. */
    method RunFfmpeg(dir: Path, target: Path, run: ToolRun)
      modifies this
      ensures State() == Emit(old(State()), dir, target, run)
      ensures Tally() == old(Tally())
    {
      if (run.status == 0 || run.partial) && dir in dirs {
        files := files + {target};
      }
    }

    /** Remove the temporary cover files that exist. */
    method RemoveTemporaries()
      modifies this
      ensures State() == Cleanup(old(State()))
      ensures Tally() == old(Tally())
    {
      if extractedCover {
        extractedCover := false;
      }
      if newCover {
        newCover := false;
      }
    }

    /** The cover branch of the mp3 and flac cases. */
    method ReplaceCover(dir: Path, target: Path, t: Tools, transcode: bool) returns (o: Outcome)
      modifies this
      ensures Step(o, State()) == CoverStep(old(State()), dir, target, t, transcode)
      ensures Tally() == Bump(old(Tally()), o)
    {
      var ok := if transcode then ConvertSuccess else CopySuccess;
      var bad := if transcode then ConvertFailure else CopyFailure;
      if t.extract.status == 0 || t.extract.partial {
        extractedCover := true;
      }
      if t.extract.status == 0 {
        if !t.coverOk {
          return Crashed(CoverUnreadable);
        }
        newCover := true;
        RunFfmpeg(dir, target, t.encode);
        o := Counted(if t.encode.status == 0 && dir in dirs then ok else bad);
      } else {
        o := Counted(bad);
      }
      Count(o.counter);
      RemoveTemporaries();
    }

    /** The mp3 case (`transcode` false) and the flac case (`transcode` true). */
    method ProcessAudio(dir: Path, target: Path, t: Tools, transcode: bool) returns (o: Outcome)
      modifies this
      ensures Step(o, State()) == AudioStep(settings, old(State()), dir, target, t, transcode)
      ensures Tally() == Bump(old(Tally()), o)
    {
      if target in files || target in dirs {
        o := Counted(AlreadyExists);
        Count(AlreadyExists);
        return;
      }
      var made := EnsureDirectory(dir);
      if !made {
        return Crashed(MakeDirsFailed);
      }
      if settings.convertCover || settings.scaleCover {
        var extractedCoverFormat := GetAudioFileCoverFormat(t.probe);
        if extractedCoverFormat != "" {
          o := ReplaceCover(dir, target, t, transcode);
        } else {
          o := NoCover;
        }
      } else if transcode {
        RunFfmpeg(dir, target, t.encode);
        o := Counted(if t.encode.status == 0 && dir in dirs then ConvertSuccess else ConvertFailure);
        Count(o.counter);
      } else {
        if dir !in dirs {
          return Crashed(NoDestinationDirectory);
        }
        o := CopyFile(target, t.copy, CopySuccess, CopyFailure);
      }
    }

    /** `copyfile` into an existing directory, and the count of its result. */
    method CopyFile(target: Path, run: CopyRun, ok: Counter, bad: Counter) returns (o: Outcome)
      modifies this
      ensures Step(o, State()) == CopyStep(old(State()), target, run, ok, bad)
      ensures Tally() == Bump(old(Tally()), o)
    {
      match run
      case CopyRaises(partial) =>
        if partial {
          files := files + {target};
        }
        o := Crashed(CopyFailed);
      case CopyReturns(lands) =>
        if lands {
          files := files + {target};
          o := Counted(ok);
        } else {
          o := Counted(bad);
        }
        Count(o.counter);
    }

    /** The lrc case. */
    method CopyLyrics(dir: Path, name: string, target: Path, copy: CopyRun) returns (o: Outcome)
      modifies this
      ensures Step(o, State()) == LyricStep(settings, source, old(State()), dir, name, target, copy)
      ensures Tally() == Bump(old(Tally()), o)
    {
      if !settings.copyLyrics {
        return Ignored;
      }
      if !(dir + [name + ".mp3"] in source || dir + [name + ".flac"] in source) {
        return Ignored;
      }
      if target in files || target in dirs {
        o := Counted(AlreadyExists);
        Count(AlreadyExists);
      } else if dir !in dirs {
        return Crashed(NoDestinationDirectory);
      } else {
        o := CopyFile(target, copy, LrcCopySuccess, LrcCopyFailure);
      }
    }

    /** One file of the walk: dispatch on its extension. */
    method ProcessFile(e: WalkEntry) returns (o: Outcome)
      modifies this
      ensures Step(o, State()) == FileStep(settings, source, old(State()), e)
      ensures Tally() == Bump(old(Tally()), o)
    {
      var extension := Extension(e.filename);
      var name := Stem(e.filename);
      if extension == "mp3" {
        o := ProcessAudio(e.dir, e.dir + [e.filename], e.tools, false);
      } else if extension == "flac" {
        o := ProcessAudio(e.dir, e.dir + [name + ".mp3"], e.tools, true);
      } else if extension == "lrc" {
        o := CopyLyrics(e.dir, name, e.dir + [e.filename], e.tools.copy);
      } else {
        o := Ignored;
      }
    }

    /** The walk loop; true when an exception ended it. */
    method Run(walk: seq<WalkEntry>) returns (crashed: bool)
      modifies this
      ensures RunSteps(settings, source, old(State()), old(Tally()), walk) == RunResult(Tally(), State(), crashed)
    {
      var i := 0;
      while i < |walk|
        invariant 0 <= i <= |walk|
        invariant RunSteps(settings, source, old(State()), old(Tally()), walk) ==
                  RunSteps(settings, source, State(), Tally(), walk[i..])
      {
        assert walk[i..][1..] == walk[i + 1..];
        var o := ProcessFile(walk[i]);
        if o.Crashed? {
          return true;
        }
        i := i + 1;
      }
      crashed := false;
    }

    /** `for key in counters: totalfiles += counters[key]`. */
    method TotalFiles() returns (total: nat)
      ensures total == Total(Tally())
    {
      var values := Values(Tally());
      total := 0;
      for j := 0 to |values|
        invariant total == Sum(values[..j])
      {
        assert values[..j + 1][..j] == values[..j];
        total := total + values[j];
      }
      assert values[..|values|] == values;
      SumOfValues(Tally());
    }
  }

  /* ---------- Dispatch ---------- */

  /** The counters each case can move. */
  function CountersFor(k: Kind): set<Counter> {
    match k
    case Mp3 => {CopySuccess, CopyFailure, AlreadyExists}
    case Flac => {ConvertSuccess, ConvertFailure, AlreadyExists}
    case Lrc => {LrcCopySuccess, LrcCopyFailure, AlreadyExists}
    case Other => {}
  }

  /**
   * A name `stem.ext` with a dot-free extension dispatches on `ext`: mp3 and
   * lrc keep their name, flac becomes `stem.mp3`, anything else has no
   * destination.
   */
  lemma TargetForms(dir: Path, stem: string, ext: string, t: Tools)
    requires '/' !in stem && '/' !in ext && '.' !in ext
    requires exists k :: 0 <= k < |stem| && stem[k] != '.'
    ensures Target(WalkEntry(dir, stem + "." + ext, t)) ==
      if ext == "mp3" || ext == "lrc" then Some(dir + [stem + "." + ext])
      else if ext == "flac" then Some(dir + [stem + ".mp3"])
      else None
  {
    SplitExtOfDotted(stem, ext);
  }

  /** The comparison is case-sensitive: "song.MP3" is not an audio file. */
  lemma UpperCaseMp3Ignored(dir: Path, t: Tools)
    ensures Target(WalkEntry(dir, "song.MP3", t)) == None
  {
    var stem, ext := "song", "MP3";
    assert stem[0] != '.';
    assert stem + "." + ext == "song.MP3";
    assert ext != "mp3" && ext != "lrc" && ext != "flac" by {
      assert ext[0] == 'M';
    }
    TargetForms(dir, stem, ext, t);
  }

  /** Nor is "song.Flac". */
  lemma CapitalizedFlacIgnored(dir: Path, t: Tools)
    ensures Target(WalkEntry(dir, "song.Flac", t)) == None
  {
    var stem, ext := "song", "Flac";
    assert stem[0] != '.';
    assert stem + "." + ext == "song.Flac";
    assert ext != "mp3" && ext != "lrc" && ext != "flac" by {
      assert ext[0] == 'F';
    }
    TargetForms(dir, stem, ext, t);
  }

  /** A hidden file such as ".mp3" has no extension, so it is skipped. */
  lemma HiddenFileIgnored(cfg: Settings, source: set<Path>, d: Disk, dir: Path, t: Tools)
    ensures FileStep(cfg, source, d, WalkEntry(dir, ".mp3", t)) == Step(Ignored, d)
  {
    assert "." + "mp3" == ".mp3";
    HiddenNameHasNoExtension("mp3");
    assert "" != "mp3" && "" != "flac" && "" != "lrc";
  }

  /** A file that is not mp3, flac or lrc changes nothing and moves no counter. */
  lemma OtherFilesIgnored(cfg: Settings, source: set<Path>, d: Disk, e: WalkEntry, c: Counters)
    requires Extension(e.filename) != "mp3" && Extension(e.filename) != "flac" && Extension(e.filename) != "lrc"
    ensures Target(e) == None
    ensures FileStep(cfg, source, d, e) == Step(Ignored, d)
    ensures Bump(c, FileStep(cfg, source, d, e).outcome) == c
  {
  }

  /**
   * The counter a file moves belongs to its case; audio files are never
   * ignored, and NoCover happens only to audio files with a cover option
   * on and no cover found.
   */
  lemma OutcomeMatchesKind(cfg: Settings, source: set<Path>, d: Disk, e: WalkEntry)
    ensures var o := FileStep(cfg, source, d, e).outcome;
      && (o.Counted? ==> o.counter in CountersFor(KindOf(e.filename)))
      && (KindOf(e.filename) in {Mp3, Flac} ==> o != Ignored)
      && (o == NoCover ==> KindOf(e.filename) in {Mp3, Flac} && CoverOptions(cfg) && CoverCodec(e.tools.probe) == "")
  {
    match KindOf(e.filename)
    case Mp3 => AudioStepOutcome(cfg, d, e.dir, e.dir + [e.filename], e.tools, false);
    case Flac => AudioStepOutcome(cfg, d, e.dir, e.dir + [Stem(e.filename) + ".mp3"], e.tools, true);
    case Lrc =>
    case Other =>
  }

  lemma AudioStepOutcome(cfg: Settings, d: Disk, dir: Path, target: Path, t: Tools, transcode: bool)
    ensures var o := AudioStep(cfg, d, dir, target, t, transcode).outcome;
      && (o.Counted? ==> o.counter in (if transcode then CountersFor(Flac) else CountersFor(Mp3)))
      && o != Ignored
      && (o == NoCover ==> CoverOptions(cfg) && CoverCodec(t.probe) == "")
  {
  }

  /* ---------- Single-file properties ---------- */

  /**
   * When the destination already exists, the file only raises `exists`
   * (an lrc file without the option or without a sibling is ignored
   * as before) and nothing on disk changes.
   */
  lemma ExistingTargetOnlyCountsExists(cfg: Settings, source: set<Path>, d: Disk, e: WalkEntry)
    requires Target(e).Some? && Present(d, Target(e).value)
    ensures FileStep(cfg, source, d, e) ==
      Step(if KindOf(e.filename) == Lrc && !(cfg.copyLyrics && HasSibling(source, e.dir, Stem(e.filename)))
           then Ignored else Counted(AlreadyExists), d)
  {
  }

  /**
   * With a cover option on and no cover found, an mp3 or flac file without
   * a destination yet writes no file, touches no temporary file and moves
   * no counter; only the directories `makedirs` made remain.
   */
  lemma NoCoverWritesNothing(cfg: Settings, source: set<Path>, d: Disk, e: WalkEntry, c: Counters)
    requires KindOf(e.filename) == Mp3 || KindOf(e.filename) == Flac
    requires !Present(d, Target(e).value)
    requires CoverOptions(cfg) && CoverCodec(e.tools.probe) == ""
    ensures var s := FileStep(cfg, source, d, e);
      && s.outcome == (if MakeDirs(d, e.dir).Some? then NoCover else Crashed(MakeDirsFailed))
      && s.disk.files == d.files
      && s.disk.dirs == (if MakeDirs(d, e.dir).Some? then MakeDirs(d, e.dir).value.dirs else d.dirs)
      && s.disk.extractedCover == d.extractedCover && s.disk.newCover == d.newCover
      && Bump(c, s.outcome) == c
  {
  }

  /** An lrc file is acted on exactly when lyrics copying is on and `name.mp3` or `name.flac` exists beside it. */
  lemma LyricsNeedFlagAndSibling(cfg: Settings, source: set<Path>, d: Disk, e: WalkEntry)
    requires KindOf(e.filename) == Lrc
    ensures FileStep(cfg, source, d, e).outcome != Ignored <==>
      cfg.copyLyrics && HasSibling(source, e.dir, Stem(e.filename))
  {
  }

  /**
   * An lrc file never creates a directory: the copy crashes exactly when
   * it is attempted and either the destination directory is missing or
   * `copyfile` raises.
   */
  lemma LyricsNeverMakeDirectories(cfg: Settings, source: set<Path>, d: Disk, e: WalkEntry)
    requires KindOf(e.filename) == Lrc
    ensures var s := FileStep(cfg, source, d, e);
      && s.disk.dirs == d.dirs
      && s.disk.extractedCover == d.extractedCover && s.disk.newCover == d.newCover
      && (s.outcome.Crashed? <==>
            cfg.copyLyrics && HasSibling(source, e.dir, Stem(e.filename)) &&
            !Present(d, e.dir + [e.filename]) && (e.dir !in d.dirs || e.tools.copy.CopyRaises?))
  {
  }

  /** A copy creates no directory, touches no temporary file and writes at most `target`. */
  lemma CopyStepShape(d: Disk, target: Path, run: CopyRun, ok: Counter, bad: Counter)
    ensures var s := CopyStep(d, target, run, ok, bad);
      && s.disk.dirs == d.dirs
      && s.disk.extractedCover == d.extractedCover && s.disk.newCover == d.newCover
      && (s.disk.files == d.files || s.disk.files == d.files + {target})
      && (s.outcome.Crashed? <==> run.CopyRaises?)
      && (run == CopyReturns(true) ==> s.outcome == Counted(ok) && target in s.disk.files)
      && (run == CopyReturns(false) ==> s == Step(Counted(bad), d))
  {
  }

  /** The cover branch creates no directory and writes at most `target`, and only into an existing directory. */
  lemma CoverStepShape(d: Disk, dir: Path, target: Path, t: Tools, transcode: bool)
    ensures var s := CoverStep(d, dir, target, t, transcode);
      && s.disk.dirs == d.dirs
      && (s.disk.files == d.files || (s.disk.files == d.files + {target} && dir in d.dirs))
  {
  }

  /**
   * An audio file either changes nothing in the tree, or (having no
   * destination yet) makes the directories `makedirs` makes and at most
   * adds its destination inside an existing directory.
   */
  lemma AudioStepShape(cfg: Settings, d: Disk, dir: Path, target: Path, t: Tools, transcode: bool)
    ensures var s := AudioStep(cfg, d, dir, target, t, transcode);
      || (s.disk.files == d.files && s.disk.dirs == d.dirs)
      || (&& !Present(d, target) && MakeDirs(d, dir).Some?
          && s.disk.dirs == MakeDirs(d, dir).value.dirs
          && (s.disk.files == d.files || (s.disk.files == d.files + {target} && dir in s.disk.dirs)))
  {
    if !Present(d, target) && MakeDirs(d, dir).Some? {
      var made := MakeDirs(d, dir).value;
      if CoverOptions(cfg) && CoverCodec(t.probe) != "" {
        CoverStepShape(made, dir, target, t, transcode);
      } else if !CoverOptions(cfg) && !transcode && dir in made.dirs {
        CopyStepShape(made, target, t.copy, CopySuccess, CopyFailure);
      }
    }
  }

  /**
   * A file writes at most its own destination and creates at most the
   * directories leading to it; nothing is ever removed from the tree.
   */
  lemma StepOnlyTouchesTarget(cfg: Settings, source: set<Path>, d: Disk, e: WalkEntry)
    ensures var s := FileStep(cfg, source, d, e);
      && d.files <= s.disk.files && d.dirs <= s.disk.dirs
      && (Target(e).None? ==> s == Step(Ignored, d))
      && (Target(e).Some? ==>
            s.disk.files <= d.files + {Target(e).value} && s.disk.dirs <= d.dirs + Prefixes(e.dir))
  {
    match KindOf(e.filename)
    case Mp3 => AudioStepShape(cfg, d, e.dir, e.dir + [e.filename], e.tools, false);
    case Flac => AudioStepShape(cfg, d, e.dir, e.dir + [Stem(e.filename) + ".mp3"], e.tools, true);
    case Lrc => LyricStepShape(cfg, source, d, e.dir, Stem(e.filename), e.dir + [e.filename], e.tools.copy);
    case Other =>
  }

  /** An lrc file creates no directory and writes at most `target`. */
  lemma LyricStepShape(cfg: Settings, source: set<Path>, d: Disk, dir: Path, name: string, target: Path, copy: CopyRun)
    ensures var s := LyricStep(cfg, source, d, dir, name, target, copy);
      && s.disk.dirs == d.dirs && d.files <= s.disk.files <= d.files + {target}
      && s.disk.extractedCover == d.extractedCover && s.disk.newCover == d.newCover
  {
    if cfg.copyLyrics && HasSibling(source, dir, name) && !Present(d, target) && dir in d.dirs {
      CopyStepShape(d, target, copy, LrcCopySuccess, LrcCopyFailure);
    }
  }

  /** Every member of `Prefixes(p)` is at most as long as `p`. */
  lemma PrefixesAreShorter(p: Path, q: Path)
    requires q in Prefixes(p)
    ensures |q| <= |p|
  {
  }

  /** `makedirs` keeps the tree a tree. */
  lemma MakeDirsKeepsWellFormed(d: Disk, dir: Path)
    requires WellFormed(d) && MakeDirs(d, dir).Some?
    ensures WellFormed(MakeDirs(d, dir).value)
  {
    if !Present(d, dir) {
      var made := MakeDirs(d, dir).value;
      assert dir[..|dir|] == dir;
      assert dir[..0] == [];
      forall p | p in made.dirs && p != []
        ensures Parent(p) in made.dirs
      {
        if p !in d.dirs {
          var k :| 0 <= k <= |dir| && p == dir[..k];
          assert Parent(p) == dir[..k - 1];
        }
      }
      forall p | p in Prefixes(dir)
        ensures p !in d.files
      {
        var k :| 0 <= k <= |dir| && p == dir[..k];
        if k == |dir| {
          assert p == dir;
        }
      }
    }
  }

  /** Adding a file whose directory exists keeps the tree a tree. */
  lemma AddFileKeepsTree(files: set<Path>, dirs: set<Path>, dir: Path, leaf: string)
    requires Tree(files, dirs) && dir in dirs && dir + [leaf] !in dirs
    ensures Tree(files + {dir + [leaf]}, dirs)
  {
    assert Parent(dir + [leaf]) == dir;
  }

  lemma AudioStepKeepsWellFormed(cfg: Settings, d: Disk, dir: Path, leaf: string, t: Tools, transcode: bool)
    requires WellFormed(d)
    ensures WellFormed(AudioStep(cfg, d, dir, dir + [leaf], t, transcode).disk)
  {
    var target := dir + [leaf];
    AudioStepShape(cfg, d, dir, target, t, transcode);
    if !Present(d, target) && MakeDirs(d, dir).Some? {
      var made := MakeDirs(d, dir).value;
      MakeDirsKeepsWellFormed(d, dir);
      assert target !in made.dirs by {
        if target in Prefixes(dir) {
          PrefixesAreShorter(dir, target);
        }
      }
      if dir in made.dirs {
        AddFileKeepsTree(made.files, made.dirs, dir, leaf);
      }
    }
  }

  /** Every file keeps the destination a well-formed tree. */
  lemma StepKeepsWellFormed(cfg: Settings, source: set<Path>, d: Disk, e: WalkEntry)
    requires WellFormed(d)
    ensures WellFormed(FileStep(cfg, source, d, e).disk)
  {
    match KindOf(e.filename)
    case Mp3 => AudioStepKeepsWellFormed(cfg, d, e.dir, e.filename, e.tools, false);
    case Flac => AudioStepKeepsWellFormed(cfg, d, e.dir, Stem(e.filename) + ".mp3", e.tools, true);
    case Lrc =>
      if e.dir in d.dirs && e.dir + [e.filename] !in d.dirs {
        AddFileKeepsTree(d.files, d.dirs, e.dir, e.filename);
      }
    case Other =>
  }

  /**
   * The cover branch crashes exactly when the extraction succeeded but the
   * cover cannot be read, leaving the extracted cover behind; otherwise
   * both temporary cover files are gone afterwards, whether the remux or
   * transcode succeeded or failed.
   */
  lemma CoverStepTemporaries(d: Disk, dir: Path, target: Path, t: Tools, transcode: bool)
    ensures var s := CoverStep(d, dir, target, t, transcode);
      && (s.outcome.Crashed? <==> t.extract.Succeeded() && !t.coverOk)
      && (!s.outcome.Crashed? ==> !s.disk.extractedCover && !s.disk.newCover)
      && (s.outcome.Crashed? ==> s.disk.extractedCover)
  {
  }

  /** The cover branch as the loop reaches it: an audio file with no destination yet, a cover option on and a cover found. */
  lemma CoverBranchReleasesTemporaries(cfg: Settings, source: set<Path>, d: Disk, e: WalkEntry)
    requires KindOf(e.filename) == Mp3 || KindOf(e.filename) == Flac
    requires !Present(d, Target(e).value) && MakeDirs(d, e.dir).Some?
    requires CoverOptions(cfg) && CoverCodec(e.tools.probe) != ""
    ensures var s := FileStep(cfg, source, d, e);
      && (s.outcome.Crashed? <==> e.tools.extract.Succeeded() && !e.tools.coverOk)
      && (!s.outcome.Crashed? ==> !s.disk.extractedCover && !s.disk.newCover)
  {
    var made := MakeDirs(d, e.dir).value;
    CoverStepTemporaries(made, e.dir, Target(e).value, e.tools, KindOf(e.filename) == Flac);
  }

  /** Outside a crash, an audio file never leaves a temporary cover file that was not there before. */
  lemma AudioStepTemporaries(cfg: Settings, d: Disk, dir: Path, target: Path, t: Tools, transcode: bool)
    ensures var s := AudioStep(cfg, d, dir, target, t, transcode);
      !s.outcome.Crashed? ==> (s.disk.extractedCover ==> d.extractedCover) && (s.disk.newCover ==> d.newCover)
  {
    if !Present(d, target) && MakeDirs(d, dir).Some? {
      var made := MakeDirs(d, dir).value;
      if CoverOptions(cfg) && CoverCodec(t.probe) != "" {
        CoverStepTemporaries(made, dir, target, t, transcode);
      } else if !CoverOptions(cfg) && !transcode && dir in made.dirs {
        CopyStepShape(made, target, t.copy, CopySuccess, CopyFailure);
      }
    }
  }

  /** Without a crash, a file never leaves a temporary cover file behind that was not there before. */
  lemma StepLeavesNoTemporaries(cfg: Settings, source: set<Path>, d: Disk, e: WalkEntry)
    requires !d.extractedCover && !d.newCover
    ensures var s := FileStep(cfg, source, d, e);
      !s.outcome.Crashed? ==> !s.disk.extractedCover && !s.disk.newCover
  {
    match KindOf(e.filename)
    case Mp3 => AudioStepTemporaries(cfg, d, e.dir, e.dir + [e.filename], e.tools, false);
    case Flac => AudioStepTemporaries(cfg, d, e.dir, e.dir + [Stem(e.filename) + ".mp3"], e.tools, true);
    case Lrc => LyricStepShape(cfg, source, d, e.dir, Stem(e.filename), e.dir + [e.filename], e.tools.copy);
    case Other =>
  }

  /** The outcomes that report a success. */
  predicate Success(o: Outcome) {
    o == Counted(CopySuccess) || o == Counted(ConvertSuccess) || o == Counted(LrcCopySuccess)
  }

  /** A successful audio step leaves its destination behind. */
  lemma AudioSuccessLands(cfg: Settings, d: Disk, dir: Path, target: Path, t: Tools, transcode: bool)
    requires Success(AudioStep(cfg, d, dir, target, t, transcode).outcome)
    ensures Present(AudioStep(cfg, d, dir, target, t, transcode).disk, target)
  {
    if !Present(d, target) {
      var made := MakeDirs(d, dir).value;
      assert dir in made.dirs;
    }
  }

  /**
   * A successful copy or conversion leaves its destination behind; by
   * ExistingTargetOnlyCountsExists the same file seen again then only
   * raises `exists`.
   */
  lemma SuccessIsRemembered(cfg: Settings, source: set<Path>, d: Disk, e: WalkEntry)
    requires Success(FileStep(cfg, source, d, e).outcome)
    ensures Target(e).Some? && Present(FileStep(cfg, source, d, e).disk, Target(e).value)
  {
    match KindOf(e.filename)
    case Mp3 => AudioSuccessLands(cfg, d, e.dir, e.dir + [e.filename], e.tools, false);
    case Flac => AudioSuccessLands(cfg, d, e.dir, e.dir + [Stem(e.filename) + ".mp3"], e.tools, true);
    case Lrc => LyricSuccessLands(cfg, source, d, e.dir, Stem(e.filename), e.dir + [e.filename], e.tools.copy);
    case Other =>
  }

  lemma LyricSuccessLands(cfg: Settings, source: set<Path>, d: Disk, dir: Path, name: string, target: Path, copy: CopyRun)
    requires Success(LyricStep(cfg, source, d, dir, name, target, copy).outcome)
    ensures Present(LyricStep(cfg, source, d, dir, name, target, copy).disk, target)
  {
  }

  /* ---------- The whole walk ---------- */

  /** Over any step, the total grows by one for every counted outcome. */
  lemma {:induction false} FoldTotal(step: (Disk, WalkEntry) -> Step, d: Disk, c: Counters, walk: seq<WalkEntry>)
    ensures Total(Fold(step, d, c, walk).counters) == Total(c) + CountCounted(Trace(step, d, walk))
    decreases walk
  {
    if walk != [] {
      var s := step(d, walk[0]);
      if !s.outcome.Crashed? {
        FoldTotal(step, s.disk, Bump(c, s.outcome), walk[1..]);
        var os' := Trace(step, s.disk, walk[1..]);
        assert ([s.outcome] + os')[1..] == os';
      }
    }
  }

  /** At most one count per outcome. */
  lemma {:induction false} CountCountedBound(os: seq<Outcome>)
    ensures CountCounted(os) <= |os|
  {
    if os != [] {
      CountCountedBound(os[1..]);
    }
  }

  /** Over any step, at most one outcome per file, and one for every file when the walk did not crash. */
  lemma {:induction false} TraceLength(step: (Disk, WalkEntry) -> Step, d: Disk, c: Counters, walk: seq<WalkEntry>)
    ensures |Trace(step, d, walk)| <= |walk|
    ensures !Fold(step, d, c, walk).crashed ==> |Trace(step, d, walk)| == |walk|
    decreases walk
  {
    if walk != [] {
      var s := step(d, walk[0]);
      if !s.outcome.Crashed? {
        TraceLength(step, s.disk, Bump(c, s.outcome), walk[1..]);
      }
    }
  }

  /** The last outcome is a crash. */
  predicate EndsInCrash(os: seq<Outcome>) {
    os != [] && (if |os| == 1 then os[0].Crashed? else EndsInCrash(os[1..]))
  }

  lemma {:induction false} EndsInCrashMeans(os: seq<Outcome>)
    ensures EndsInCrash(os) <==> os != [] && os[|os| - 1].Crashed?
  {
    if |os| > 1 {
      EndsInCrashMeans(os[1..]);
    }
  }

  /** Over any step, the walk crashed exactly when its last outcome is a crash. */
  lemma {:induction false} FoldCrashIsLast(step: (Disk, WalkEntry) -> Step, d: Disk, c: Counters, walk: seq<WalkEntry>)
    ensures Fold(step, d, c, walk).crashed <==> EndsInCrash(Trace(step, d, walk))
    decreases walk
  {
    if walk != [] {
      var s := step(d, walk[0]);
      if !s.outcome.Crashed? {
        FoldCrashIsLast(step, s.disk, Bump(c, s.outcome), walk[1..]);
        var os' := Trace(step, s.disk, walk[1..]);
        assert ([s.outcome] + os')[1..] == os';
      }
    }
  }

  /** No outcome but the last is a crash. */
  predicate CrashOnlyLast(os: seq<Outcome>) {
    |os| <= 1 || (!os[0].Crashed? && CrashOnlyLast(os[1..]))
  }

  lemma {:induction false} CrashOnlyLastMeans(os: seq<Outcome>)
    ensures CrashOnlyLast(os) <==> forall i :: 0 <= i < |os| - 1 ==> !os[i].Crashed?
  {
    if |os| > 1 {
      CrashOnlyLastMeans(os[1..]);
      assert forall i :: 1 <= i < |os| ==> os[i] == os[1..][i - 1];
    }
  }

  /** Over any step, the walk stops at its first crash. */
  lemma {:induction false} TraceCrashOnlyLast(step: (Disk, WalkEntry) -> Step, d: Disk, walk: seq<WalkEntry>)
    ensures CrashOnlyLast(Trace(step, d, walk))
    decreases walk
  {
    if walk != [] {
      var s := step(d, walk[0]);
      if !s.outcome.Crashed? {
        TraceCrashOnlyLast(step, s.disk, walk[1..]);
        var os' := Trace(step, s.disk, walk[1..]);
        assert ([s.outcome] + os')[1..] == os';
      }
    }
  }

  /** Over any step, no counter goes down. */
  lemma {:induction false} FoldCountersGrow(step: (Disk, WalkEntry) -> Step, d: Disk, c: Counters, walk: seq<WalkEntry>)
    ensures forall k :: Get(c, k) <= Get(Fold(step, d, c, walk).counters, k)
    decreases walk
  {
    if walk != [] {
      var s := step(d, walk[0]);
      if !s.outcome.Crashed? {
        FoldCountersGrow(step, s.disk, Bump(c, s.outcome), walk[1..]);
      }
    }
  }

  /**
   * The summary's total is the counters the walk started from plus one for
   * every counted outcome, so at most one per walked file; no counter ever
   * goes down.
   */
  lemma RunTotal(cfg: Settings, source: set<Path>, d: Disk, c: Counters, walk: seq<WalkEntry>)
    ensures var r := RunSteps(cfg, source, d, c, walk);
      && Total(r.counters) == Total(c) + CountCounted(Outcomes(cfg, source, d, walk))
      && Total(r.counters) <= Total(c) + |walk|
      && forall k :: Get(c, k) <= Get(r.counters, k)
  {
    var step := FileStepOf(cfg, source);
    FoldTotal(step, d, c, walk);
    TraceLength(step, d, c, walk);
    CountCountedBound(Trace(step, d, walk));
    FoldCountersGrow(step, d, c, walk);
  }

  /** A run has at most one outcome per file, and one for every file when it did not crash. */
  lemma RunLength(cfg: Settings, source: set<Path>, d: Disk, c: Counters, walk: seq<WalkEntry>)
    ensures |Outcomes(cfg, source, d, walk)| <= |walk|
    ensures !RunSteps(cfg, source, d, c, walk).crashed ==> |Outcomes(cfg, source, d, walk)| == |walk|
  {
    TraceLength(FileStepOf(cfg, source), d, c, walk);
  }

  /**
   * The walk stops at the first exception: it crashed exactly when its last
   * outcome is a crash, and no other outcome is one (EndsInCrashMeans and
   * CrashOnlyLastMeans spell the two predicates out by index).
   */
  lemma RunStopsAtFirstCrash(cfg: Settings, source: set<Path>, d: Disk, c: Counters, walk: seq<WalkEntry>)
    ensures RunSteps(cfg, source, d, c, walk).crashed <==> EndsInCrash(Outcomes(cfg, source, d, walk))
    ensures CrashOnlyLast(Outcomes(cfg, source, d, walk))
  {
    var step := FileStepOf(cfg, source);
    FoldCrashIsLast(step, d, c, walk);
    TraceCrashOnlyLast(step, d, walk);
  }

  /** The walk keeps the destination a tree and never removes anything from it. */
  lemma {:induction false} RunGrowsTree(cfg: Settings, source: set<Path>, d: Disk, c: Counters, walk: seq<WalkEntry>)
    requires WellFormed(d)
    ensures var r := RunSteps(cfg, source, d, c, walk);
      WellFormed(r.disk) && d.files <= r.disk.files && d.dirs <= r.disk.dirs
    decreases walk
  {
    if walk != [] {
      var s := FileStep(cfg, source, d, walk[0]);
      StepKeepsWellFormed(cfg, source, d, walk[0]);
      StepOnlyTouchesTarget(cfg, source, d, walk[0]);
      if !s.outcome.Crashed? {
        RunGrowsTree(cfg, source, s.disk, Bump(c, s.outcome), walk[1..]);
      }
    }
  }

  /** A walk that ends normally leaves no temporary cover file behind. */
  lemma {:induction false} RunLeavesNoTemporaries(cfg: Settings, source: set<Path>, d: Disk, c: Counters, walk: seq<WalkEntry>)
    requires !d.extractedCover && !d.newCover
    ensures var r := RunSteps(cfg, source, d, c, walk);
      !r.crashed ==> !r.disk.extractedCover && !r.disk.newCover
    decreases walk
  {
    if walk != [] {
      var s := FileStep(cfg, source, d, walk[0]);
      StepLeavesNoTemporaries(cfg, source, d, walk[0]);
      if !s.outcome.Crashed? {
        RunLeavesNoTemporaries(cfg, source, s.disk, Bump(c, s.outcome), walk[1..]);
      }
    }
  }

  /**
   * Running again over a library whose every destination already exists
   * changes nothing on disk, never crashes, and moves no counter but
   * `exists`.
   */
  lemma RerunChangesNothing(cfg: Settings, source: set<Path>, d: Disk, c: Counters, walk: seq<WalkEntry>)
    requires forall i :: 0 <= i < |walk| && Target(walk[i]).Some? ==> Present(d, Target(walk[i]).value)
    ensures var r := RunSteps(cfg, source, d, c, walk);
      && !r.crashed && r.disk == d
      && forall k :: k != AlreadyExists ==> Get(r.counters, k) == Get(c, k)
  {
    AllExistFromForall(d, walk);
    RerunOver(cfg, source, d, c, walk);
  }

  /** Every destination the walk names exists in `d`. */
  predicate AllExist(d: Disk, walk: seq<WalkEntry>) {
    walk == [] || ((Target(walk[0]).None? || Present(d, Target(walk[0]).value)) && AllExist(d, walk[1..]))
  }

  lemma {:induction false} AllExistFromForall(d: Disk, walk: seq<WalkEntry>)
    requires forall i :: 0 <= i < |walk| && Target(walk[i]).Some? ==> Present(d, Target(walk[i]).value)
    ensures AllExist(d, walk)
  {
    if walk != [] {
      assert forall i :: 0 <= i < |walk[1..]| ==> walk[1..][i] == walk[i + 1];
      AllExistFromForall(d, walk[1..]);
    }
  }

  lemma {:induction false} RerunOver(cfg: Settings, source: set<Path>, d: Disk, c: Counters, walk: seq<WalkEntry>)
    requires AllExist(d, walk)
    ensures var r := RunSteps(cfg, source, d, c, walk);
      && !r.crashed && r.disk == d
      && forall k :: k != AlreadyExists ==> Get(r.counters, k) == Get(c, k)
    decreases walk
  {
    if walk != [] {
      var s := FileStep(cfg, source, d, walk[0]);
      if Target(walk[0]).Some? {
        ExistingTargetOnlyCountsExists(cfg, source, d, walk[0]);
      }
      assert s.disk == d && (s.outcome == Ignored || s.outcome == Counted(AlreadyExists));
      RerunOver(cfg, source, d, Bump(c, s.outcome), walk[1..]);
    }
  }
}
