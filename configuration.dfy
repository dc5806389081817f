/**
 * The session configuration (`Config` in the source), the host facts the
 * pipeline depends on, and `normalize_path`.
 */
module Configuration {
  import opened Wrappers
  import opened Paths
  import opened FileSystem

  /** A hex digest as `hexdigest()` returns it. */
  type Digest = string

  /** An `action_mode` string the pipeline does not recognise. */
  type UnknownModeName = name: string | name != "none" && name != "delete" && name != "quarantine" && name != "link"
    witness ""

  /** `action_mode`: `"none"`, `"delete"`, `"quarantine"`, `"link"`, or any other string. */
  datatype ActionMode = NoAction | Delete | Quarantine | Link | OtherMode(name: UnknownModeName)

  /** A `keep_strategy` string the selection does not recognise. */
  type UnknownStrategyName = name: string |
    name != "first" && name != "shortest" && name != "longest" && name != "oldest" && name != "newest"
    witness ""

  /** `keep_strategy`: `"first"`, `"shortest"`, `"longest"`, `"oldest"`, `"newest"`, or any other string. */
  datatype KeepStrategy = KeepFirst | Shortest | Longest | Oldest | Newest | OtherStrategy(name: UnknownStrategyName)

  /** A snapshot of the configuration's fields, as a pool worker receives it pickled. */
  datatype Settings = Settings(
    directory: Path,
    minSize: int,
    partialHash: bool,
    checkHardlinks: bool,
    longPaths: bool,
    dryRun: bool,
    actionMode: ActionMode,
    keepStrategy: KeepStrategy,
    quarantinePath: Option<Path>,
    confirmations: int)

  /**
   * What the host provides: the platform, whether `pywin32` loaded,
   * `os.path.abspath`, and the configured digest over a byte string.
   */
  datatype Env = Env(
    onWindows: bool,
    win32Available: bool,
    absPath: Path -> Path,
    digest: seq<byte> -> Digest)

  /** Whether the platform's hardlink primitive exists (`os.link`, or `win32file` on Windows). */
  predicate CanLink(env: Env)
  {
    !env.onWindows || env.win32Available
  }

  /** The values `Config.__init__` sets. */
  function Defaults(env: Env): Settings
  {
    Settings("", 1, false, env.onWindows && env.win32Available, false, true, NoAction, KeepFirst, None, 2)
  }

  /** The mutable configuration object shared by the stages. */
  class Config {
    var directory: Path
    var minSize: int
    var partialHash: bool
    var checkHardlinks: bool
    var longPaths: bool
    var dryRun: bool
    var actionMode: ActionMode
    var keepStrategy: KeepStrategy
    var quarantinePath: Option<Path>
    var confirmations: int

    function Value(): Settings
      reads this
    {
      Settings(directory, minSize, partialHash, checkHardlinks, longPaths, dryRun,
               actionMode, keepStrategy, quarantinePath, confirmations)
    }

    constructor(env: Env)
      ensures Value() == Defaults(env)
    {
      directory, minSize, partialHash := "", 1, false;
      checkHardlinks, longPaths, dryRun := env.onWindows && env.win32Available, false, true;
      actionMode, keepStrategy, quarantinePath, confirmations := NoAction, KeepFirst, None, 2;
    }
  }

  /** The Windows long-path prefix `\\?\`. */
  const LongPathPrefix: string := "\\\\?\\"

  /** `normalize_path`: on Windows with long paths enabled, an unprefixed path becomes `\\?\` + its absolute form. */
  function NormalizePath(path: Path, cfg: Settings, env: Env): (r: Path)
  {
    if cfg.longPaths && env.onWindows && !StartsWith(path, LongPathPrefix)
    then LongPathPrefix + env.absPath(path)
    else path
  }

  /**
   * Normalizing is idempotent: once enabled, the result always carries the
   * prefix, so a second pass leaves it alone; otherwise nothing changes.
   */
  lemma NormalizeIdempotent(path: Path, cfg: Settings, env: Env)
    ensures NormalizePath(NormalizePath(path, cfg, env), cfg, env) == NormalizePath(path, cfg, env)
    ensures cfg.longPaths && env.onWindows ==> StartsWith(NormalizePath(path, cfg, env), LongPathPrefix)
    ensures !(cfg.longPaths && env.onWindows) || StartsWith(path, LongPathPrefix) ==> NormalizePath(path, cfg, env) == path
  {
    var r := NormalizePath(path, cfg, env);
    if cfg.longPaths && env.onWindows && !StartsWith(path, LongPathPrefix) {
      assert r[..|LongPathPrefix|] == LongPathPrefix;
    }
  }
}
