/**
 * The `validate` command: checks on its argument and flags, then the fixed
 * sequence of steps (parse the directory, verify, load the metadata, extract
 * the bundles, build the filter, run the validators) and the exit decision.
 * Everything the command hands off to the file system, the network or code
 * outside this model arrives as a function of a Collaborators value.
 */
module ValidateCmd {
  import opened Types

  /** The four package-level flag variables the command reads. */
  datatype Flags = Flags(env: string, version: string, disabled: string, enabled: string)

  /** The flag values before the command line is parsed. */
  const DefaultFlags := Flags("stage", "", "", "")

  /** The command's collaborators; `F` is the filter type, which this model never looks inside. */
  datatype Collaborators<!F> = Collaborators(
    abs: string -> Result<string, string>,                       // filepath.Abs
    stat: string -> Result<bool, string>,                        // os.Stat, then IsDir()
    semverIsValid: string -> bool,                               // semver.IsValid
    loadMeta: (string, string, string) -> Result<AddonMetadata, string>,  // the metadata loader
    extractBundles: (string, string) -> Result<seq<Bundle>, string>,      // the bundle extractor
    newFilter: (string, string) -> Result<F, string>,            // validate.NewFilter(disabled, enabled)
    validateCLI: (MetaBundle, F) -> (bool, seq<string>))         // validate.ValidateCLI

  // ------------------------------------------------------------------
  // Argument and flag checks
  // ------------------------------------------------------------------

  /** path.IsAbs: a slash-separated path is absolute when it starts with '/'. */
  predicate IsAbs(path: string)
  {
    |path| > 0 && path[0] == '/'
  }

  /** parseAddonDir: an absolute path is kept, any other is made absolute by filepath.Abs. */
  function ParseAddonDir(dir: string, abs: string -> Result<string, string>): (r: Result<string, string>)
    ensures IsAbs(dir) ==> r == Success(dir)
    ensures !IsAbs(dir) ==> r == abs(dir)
  {
    if !IsAbs(dir) then abs(dir) else Success(dir)
  }

  /**
   * The directory handed to verifyAddonDir is absolute, as validate.go promises,
   * provided filepath.Abs keeps its own promise of an absolute result.
   */
  lemma ParseAddonDirAbsolute(dir: string, abs: string -> Result<string, string>)
    requires forall p :: abs(p).Success? ==> IsAbs(abs(p).value)
    ensures ParseAddonDir(dir, abs).Success? ==> IsAbs(ParseAddonDir(dir, abs).value)
  {
  }

  /** verifyAddonDir: the path must exist and be a directory. */
  function VerifyAddonDir(addonDir: string, stat: string -> Result<bool, string>): (r: Outcome<string>)
    ensures r.Pass? <==> stat(addonDir) == Success(true)
    ensures stat(addonDir).Failure? ==> r == Fail("error while reading directory: " + stat(addonDir).error)
    ensures stat(addonDir) == Success(false) ==> r == Fail("'" + addonDir + "' is not a directory")
  {
    match stat(addonDir)
    case Failure(e) => Fail("error while reading directory: " + e)
    case Success(isDir) => if !isDir then Fail("'" + addonDir + "' is not a directory") else Pass
  }

  /** verifyEnv: exactly the three environment names are accepted. */
  function VerifyEnv(env: string): (r: Outcome<string>)
    ensures r.Pass? <==> env in ["integration", "stage", "production"]
    ensures r.Fail? ==>
      r.error == "'" + env + "' is not a valid environment; must be one of 'integration', 'stage' or 'production'"
  {
    if env != "integration" && env != "stage" && env != "production" then
      Fail("'" + env + "' is not a valid environment; must be one of 'integration', 'stage' or 'production'")
    else
      Pass
  }

  /** verifyVersion: unset and "latest" are accepted; anything else must satisfy semver once prefixed with 'v'. */
  function VerifyVersion(version: string, semverIsValid: string -> bool): (r: Outcome<string>)
    ensures version == "" ==> r == Pass
    ensures version == "latest" ==> r == Pass
    ensures version != "" && version != "latest" ==> (r.Pass? <==> semverIsValid("v" + version))
    ensures r.Fail? ==>
      r.error == "'" + version + "' is not a valid version; must be one of 'latest' or match 'MAJOR.MINOR.PATCH'"
  {
    if version == "" then Pass
    else if version != "latest" && !semverIsValid("v" + version) then
      Fail("'" + version + "' is not a valid version; must be one of 'latest' or match 'MAJOR.MINOR.PATCH'")
    else Pass
  }

  /** The version check asks semver about `"v" + version` and nothing else, and never for "" or "latest". */
  lemma VerifyVersionConsultsOnlyPrefixed(version: string, p: string -> bool, q: string -> bool)
    requires version != "" && version != "latest" ==> p("v" + version) == q("v" + version)
    ensures VerifyVersion(version, p) == VerifyVersion(version, q)
  {
  }

  /** verifyArgsAndFlags: directory, then environment, then version; the first failure is the answer. */
  function VerifyArgsAndFlags(addonDir: string, flags: Flags, stat: string -> Result<bool, string>,
                              semverIsValid: string -> bool): (r: Outcome<string>)
    ensures r.Pass? <==>
      VerifyAddonDir(addonDir, stat).Pass? && VerifyEnv(flags.env).Pass? &&
      VerifyVersion(flags.version, semverIsValid).Pass?
    ensures VerifyAddonDir(addonDir, stat).Fail? ==> r == VerifyAddonDir(addonDir, stat)
    ensures VerifyAddonDir(addonDir, stat).Pass? && VerifyEnv(flags.env).Fail? ==> r == VerifyEnv(flags.env)
    ensures VerifyAddonDir(addonDir, stat).Pass? && VerifyEnv(flags.env).Pass? ==>
      r == VerifyVersion(flags.version, semverIsValid)
  {
    match VerifyAddonDir(addonDir, stat)
    case Fail(e) => Fail(e)
    case Pass =>
      match VerifyEnv(flags.env)
      case Fail(e) => Fail(e)
      case Pass => VerifyVersion(flags.version, semverIsValid)
  }

  /** Once a check fails, the later checks' inputs make no difference. */
  lemma VerifyArgsAndFlagsStopsAtFirstFailure(addonDir: string, flags: Flags, flags': Flags,
                                              stat: string -> Result<bool, string>,
                                              p: string -> bool, q: string -> bool)
    ensures VerifyAddonDir(addonDir, stat).Fail? ==>
      VerifyArgsAndFlags(addonDir, flags, stat, p) == VerifyArgsAndFlags(addonDir, flags', stat, q)
    ensures VerifyEnv(flags.env).Fail? && flags.env == flags'.env ==>
      VerifyArgsAndFlags(addonDir, flags, stat, p) == VerifyArgsAndFlags(addonDir, flags', stat, q)
  {
  }

  /** The default flags pass both flag checks, whatever semver would say. */
  lemma DefaultFlagsAreValid(semverIsValid: string -> bool)
    ensures VerifyEnv(DefaultFlags.env) == Pass
    ensures VerifyVersion(DefaultFlags.version, semverIsValid) == Pass
    ensures DefaultFlags.disabled == "" && DefaultFlags.enabled == ""
  {
  }

  // ------------------------------------------------------------------
  // validateMain
  // ------------------------------------------------------------------

  /** The steps of validateMain, in the order it takes them. */
  datatype Step = ParseDir | VerifyArgs | LoadMeta | ExtractBundles | BuildFilter | RunValidators

  const StepOrder: seq<Step> := [ParseDir, VerifyArgs, LoadMeta, ExtractBundles, BuildFilter, RunValidators]

  /** How a run of validateMain ends. */
  datatype Ending =
    | Returned                               // normal return: the process exits with status 0
    | Fatal(message: string)                 // fail(1, ...): a preparatory step failed
    | ValidationErrors(errs: seq<string>)    // errors printed, then os.Exit(1)
    | ValidationFailed                       // os.Exit(1) because success is false
    | NilDereference                         // `*meta.IndexImage` on a nil pointer: a Go runtime panic

  /** The process exit status each ending gives (a Go runtime panic exits with status 2). */
  function ExitStatus(e: Ending): (code: int)
    ensures code == 0 <==> e == Returned
    ensures e.Fatal? || e.ValidationErrors? || e.ValidationFailed? ==> code == 1
  {
    match e
    case Returned => 0
    case NilDereference => 2
    case _ => 1
  }

  /** The line fail() prints before exiting. */
  function FatalMessage(msg: string): string
  {
    "A fatal error occurred while preparing validations: " + msg + "\n"
  }

  // The message each preparatory step hands to fail() when it fails.

  function ParseFailure(arg: string, e: string): string
  {
    "unable to parse the provided directory '" + arg + "': " + e
  }

  function VerifyFailure(e: string): string
  {
    "unable to process flag or argument: " + e
  }

  function LoadFailure(dir: string, e: string): string
  {
    "unable to load addon metadata from file '" + dir + "': " + e
  }

  function ExtractFailure(e: string): string
  {
    "unable to extract and parse bundles from the given index image: " + e
  }

  function FilterFailure(e: string): string
  {
    "unable to process filter flags: " + e
  }

  /** How far the preparatory steps got: a subject and a filter, or the step that stopped them. */
  datatype Preparation<F> =
    | Ready(subject: MetaBundle, filter: F)
    | Aborted(step: Step, message: string)
    | Crashed

  /** The metadata a run loads from its (parsed) directory with the current flags. */
  function Loaded<F>(dir: string, flags: Flags, c: Collaborators<F>): Result<AddonMetadata, string>
  {
    c.loadMeta(dir, flags.env, flags.version)
  }

  /** The preparatory steps a run takes once its directory is parsed and verified, in the order the Go code takes them. */
  function PrepareFrom<F>(dir: string, flags: Flags, c: Collaborators<F>): (r: Preparation<F>)
    ensures r.Aborted? ==> r.step in {LoadMeta, ExtractBundles, BuildFilter}
    ensures Loaded(dir, flags, c).Failure? <==> r.Aborted? && r.step == LoadMeta
    ensures Loaded(dir, flags, c).Failure? ==> r.message == LoadFailure(dir, Loaded(dir, flags, c).error)
    ensures r.Crashed? <==> Loaded(dir, flags, c).Success? && Loaded(dir, flags, c).value.indexImage.None?
    ensures Loaded(dir, flags, c).Success? && Loaded(dir, flags, c).value.indexImage.Some? ==>
      var meta := Loaded(dir, flags, c).value;
      var extracted := c.extractBundles(meta.indexImage.value, meta.operatorName);
      var built := c.newFilter(flags.disabled, flags.enabled);
      && (extracted.Failure? <==> r.Aborted? && r.step == ExtractBundles)
      && (extracted.Failure? ==> r.message == ExtractFailure(extracted.error))
      && (extracted.Success? && built.Failure? <==> r.Aborted? && r.step == BuildFilter)
      && (extracted.Success? && built.Failure? ==> r.message == FilterFailure(built.error))
      && (extracted.Success? && built.Success? <==> r.Ready?)
      && (r.Ready? ==> r.subject == MetaBundle(meta, extracted.value) && r.filter == built.value)
  {
    match Loaded(dir, flags, c)
    case Failure(e) =>
      Aborted(LoadMeta, LoadFailure(dir, e))
    case Success(meta) =>
      match meta.indexImage
      case None => Crashed
      case Some(indexImage) =>
        match c.extractBundles(indexImage, meta.operatorName)
        case Failure(e) =>
          Aborted(ExtractBundles, ExtractFailure(e))
        case Success(bundles) =>
          match c.newFilter(flags.disabled, flags.enabled)
          case Failure(e) => Aborted(BuildFilter, FilterFailure(e))
          case Success(filter) => Ready(MetaBundle(meta, bundles), filter)
  }

  /** Every collaborator the preparatory steps consult succeeds, and the index image is present. */
  predicate PreparationSucceeds<F>(arg: string, flags: Flags, c: Collaborators<F>)
  {
    && ParseAddonDir(arg, c.abs).Success?
    && var dir := ParseAddonDir(arg, c.abs).value;
    && VerifyArgsAndFlags(dir, flags, c.stat, c.semverIsValid).Pass?
    && Loaded(dir, flags, c).Success?
    && var meta := Loaded(dir, flags, c).value;
    && meta.indexImage.Some?
    && c.extractBundles(meta.indexImage.value, meta.operatorName).Success?
    && c.newFilter(flags.disabled, flags.enabled).Success?
  }

  /** All preparatory steps of a run, from the raw argument. */
  function Prepare<F>(arg: string, flags: Flags, c: Collaborators<F>): (r: Preparation<F>)
    ensures ParseAddonDir(arg, c.abs).Failure? <==> r.Aborted? && r.step == ParseDir
    ensures ParseAddonDir(arg, c.abs).Failure? ==> r.message == ParseFailure(arg, ParseAddonDir(arg, c.abs).error)
    ensures r.Aborted? && r.step == VerifyArgs <==>
      ParseAddonDir(arg, c.abs).Success? &&
      VerifyArgsAndFlags(ParseAddonDir(arg, c.abs).value, flags, c.stat, c.semverIsValid).Fail?
    ensures r.Aborted? && r.step == VerifyArgs ==>
      r.message == VerifyFailure(VerifyArgsAndFlags(ParseAddonDir(arg, c.abs).value, flags, c.stat, c.semverIsValid).error)
    ensures r.Aborted? ==> r.step != RunValidators
    ensures !(r.Aborted? && r.step in {ParseDir, VerifyArgs}) ==>
      r == PrepareFrom(ParseAddonDir(arg, c.abs).value, flags, c)
    ensures r.Ready? <==> PreparationSucceeds(arg, flags, c)
  {
    match ParseAddonDir(arg, c.abs)
    case Failure(e) => Aborted(ParseDir, ParseFailure(arg, e))
    case Success(dir) =>
      match VerifyArgsAndFlags(dir, flags, c.stat, c.semverIsValid)
      case Fail(e) => Aborted(VerifyArgs, VerifyFailure(e))
      case Pass => PrepareFrom(dir, flags, c)
  }

  /** The filter is built only after the metadata loaded and the bundles were extracted. */
  lemma FilterOnlyAfterLoadAndExtract<F>(arg: string, flags: Flags, c: Collaborators<F>)
    requires var p := Prepare(arg, flags, c); p.Ready? || (p.Aborted? && p.step == BuildFilter)
    ensures ParseAddonDir(arg, c.abs).Success?
    ensures var dir := ParseAddonDir(arg, c.abs).value;
      && VerifyArgsAndFlags(dir, flags, c.stat, c.semverIsValid).Pass?
      && Loaded(dir, flags, c).Success?
      && var meta := Loaded(dir, flags, c).value;
      && meta.indexImage.Some?
      && c.extractBundles(meta.indexImage.value, meta.operatorName).Success?
  {
  }

  /** The decision after ValidateCLI: errors first, then the success flag. */
  function Verdict(success: bool, errs: seq<string>): (e: Ending)
    ensures e == Returned <==> success && errs == []
    ensures errs != [] ==> e == ValidationErrors(errs)
    ensures errs == [] && !success ==> e == ValidationFailed
  {
    if |errs| > 0 then ValidationErrors(errs)
    else if !success then ValidationFailed
    else Returned
  }

  /** The steps a run takes, given how far its preparation got: a prefix of StepOrder ending at the failing step. */
  function StepsTaken<F>(p: Preparation<F>): (steps: seq<Step>)
    ensures 1 <= |steps| && steps <= StepOrder
    ensures p.Aborted? ==> steps[|steps| - 1] == p.step
    ensures p.Ready? ==> steps == StepOrder
    ensures p.Crashed? ==> steps == StepOrder[..3]
    ensures p.Crashed? || (p.Aborted? && p.step != RunValidators) ==> RunValidators !in steps
  {
    match p
    case Ready(_, _) => StepOrder
    case Crashed => StepOrder[..3]
    case Aborted(s, _) =>
      match s
      case ParseDir => StepOrder[..1]
      case VerifyArgs => StepOrder[..2]
      case LoadMeta => StepOrder[..3]
      case ExtractBundles => StepOrder[..4]
      case BuildFilter => StepOrder[..5]
      case RunValidators => StepOrder
  }

  /** How a run ends, given how far its preparation got. */
  function Conclude<F>(p: Preparation<F>, c: Collaborators<F>): (e: Ending)
  {
    match p
    case Aborted(_, message) => Fatal(FatalMessage(message))
    case Crashed => NilDereference
    case Ready(subject, filter) => Verdict(c.validateCLI(subject, filter).0, c.validateCLI(subject, filter).1)
  }

  /**
   * The exit decision: status 0 exactly when every preparatory step succeeded and
   * ValidateCLI reported success with no errors; a failing step, a reported error
   * or a false success flag gives status 1.
   */
  lemma ExitDecision<F>(arg: string, flags: Flags, c: Collaborators<F>)
    ensures var p := Prepare(arg, flags, c);
      ExitStatus(Conclude(p, c)) == 0 <==>
        && PreparationSucceeds(arg, flags, c)
        && c.validateCLI(p.subject, p.filter).0 && c.validateCLI(p.subject, p.filter).1 == []
    ensures var p := Prepare(arg, flags, c);
      !p.Crashed? && ExitStatus(Conclude(p, c)) != 0 ==> ExitStatus(Conclude(p, c)) == 1
    ensures var p := Prepare(arg, flags, c);
      p.Aborted? ==> Conclude(p, c) == Fatal(FatalMessage(p.message))
  {
  }

  /**
   * validateMain: every step in order, exiting at the first failure. Returns
   * how the run ended and the steps it took.
   */
  method ValidateMain<F>(arg: string, flags: Flags, c: Collaborators<F>) returns (ending: Ending, trace: seq<Step>)
    ensures trace == StepsTaken(Prepare(arg, flags, c))
    ensures ending == Conclude(Prepare(arg, flags, c), c)
  {
    trace := [ParseDir];
    var parsed := ParseAddonDir(arg, c.abs);
    if parsed.Failure? {
      var msg := ParseFailure(arg, parsed.error);
      assert Prepare(arg, flags, c) == Aborted(ParseDir, msg);
      ending := Fatal(FatalMessage(msg));
      return;
    }
    var addonDir := parsed.value;

    trace := trace + [VerifyArgs];
    var verified := VerifyArgsAndFlags(addonDir, flags, c.stat, c.semverIsValid);
    if verified.Fail? {
      var msg := VerifyFailure(verified.error);
      assert Prepare(arg, flags, c) == Aborted(VerifyArgs, msg);
      ending := Fatal(FatalMessage(msg));
      return;
    }
    assert Prepare(arg, flags, c) == PrepareFrom(addonDir, flags, c);

    trace := trace + [LoadMeta];
    var loaded := c.loadMeta(addonDir, flags.env, flags.version);
    if loaded.Failure? {
      var msg := LoadFailure(addonDir, loaded.error);
      assert Prepare(arg, flags, c) == Aborted(LoadMeta, msg);
      ending := Fatal(FatalMessage(msg));
      return;
    }
    var meta := loaded.value;
    if meta.indexImage.None? {
      assert Prepare(arg, flags, c) == Crashed;
      ending := NilDereference;
      return;
    }

    trace := trace + [ExtractBundles];
    var extracted := c.extractBundles(meta.indexImage.value, meta.operatorName);
    if extracted.Failure? {
      var msg := ExtractFailure(extracted.error);
      assert Prepare(arg, flags, c) == Aborted(ExtractBundles, msg);
      ending := Fatal(FatalMessage(msg));
      return;
    }
    var bundles := extracted.value;

    trace := trace + [BuildFilter];
    var built := c.newFilter(flags.disabled, flags.enabled);
    if built.Failure? {
      var msg := FilterFailure(built.error);
      assert Prepare(arg, flags, c) == Aborted(BuildFilter, msg);
      ending := Fatal(FatalMessage(msg));
      return;
    }
    var filter := built.value;
    assert Prepare(arg, flags, c) == Ready(MetaBundle(meta, bundles), filter);

    trace := trace + [RunValidators];
    var (success, errs) := c.validateCLI(MetaBundle(meta, bundles), filter);
    if |errs| > 0 {
      ending := ValidationErrors(errs);
      return;
    }
    if !success {
      ending := ValidationFailed;
      return;
    }
    ending := Returned;
  }
}
