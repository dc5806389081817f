/**
 * `run_scan_and_process` without the report import, the report, the
 * display and the integrations: scan by size, optionally split off
 * hardlinks, hash, account the waste, then, behind the confirmation gate,
 * perform the actions.
 */
module Pipeline {
  import opened Wrappers
  import opened Paths
  import opened FileSystem
  import opened Configuration
  import opened Dicts
  import opened Scan
  import opened Hardlinks
  import opened Hashing
  import opened Waste
  import opened Actions

  /** Whether prompt `i` was answered yes; a prompt left without an answer gets the default, no. */
  predicate AnsweredYes(answers: seq<bool>, i: int)
  {
    0 <= i < |answers| && answers[i]
  }

  /**
   * The confirmation gate: a dry run needs none; otherwise each of the
   * `confirmations` prompts must be answered yes, and asking stops at the
   * first no.
   */
  predicate Confirmed(dryRun: bool, confirmations: int, answers: seq<bool>)
  {
    dryRun || forall i :: 0 <= i < confirmations ==> AnsweredYes(answers, i)
  }

  method ConfirmGate(dryRun: bool, confirmations: int, answers: seq<bool>) returns (ok: bool)
    ensures ok <==> dryRun || forall i :: 0 <= i < confirmations ==> AnsweredYes(answers, i)
  {
    ok := true;
    if !dryRun {
      var i := 0;
      while i < confirmations && ok
        invariant 0 <= i
        invariant ok ==> forall j :: 0 <= j < i ==> AnsweredYes(answers, j)
        invariant !ok ==> 0 < i <= confirmations && !AnsweredYes(answers, i - 1)
      {
        var yes := i < |answers| && answers[i];
        if !yes {
          ok := false;
        }
        i := i + 1;
      }
    }
  }

  /** What happened at the action step. */
  datatype ActionStep = NotAsked | Cancelled | Acted(outcome: Outcome)

  /** The end of a run: nothing when no directory is set, otherwise every stage's result. */
  datatype RunResult =
    | NotConfigured
    | Ran(scan: ScanResult, hardlinks: Dict<FileKey, seq<Path>>, duplicates: Dict<Digest, seq<Path>>,
          wasted: nat, action: ActionStep)

  /** The buckets hashing starts from: the hardlink residuals when hardlink detection is on. */
  function ToHash(fs: Fs, s: Settings, env: Env, walk: seq<Path>): Dict<nat, seq<Path>>
  {
    var buckets := PotentialDuplicates(fs, s, env, walk);
    if s.checkHardlinks then Identify(fs, s, env, buckets).toCheck else buckets
  }

  /** The whole run on a filesystem value: the final filesystem and the result. */
  function RunPipeline(fs: Fs, s: Settings, env: Env, walk: seq<Path>, answers: seq<bool>, stamp: nat): (Fs, RunResult)
  {
    if |s.directory| == 0 then (fs, NotConfigured)
    else
      var buckets := PotentialDuplicates(fs, s, env, walk);
      var scan := ScanResult(buckets, |SizeItems(fs, s, env, walk)|, |UnreadableEntries(fs, s, env, walk)|);
      var hardlinks := if s.checkHardlinks then Identify(fs, s, env, buckets).hardlinks else [];
      var duplicates := DuplicatesByHash(fs, s, env, ToHash(fs, s, env, walk));
      var wasted := Wasted(fs, s, env, duplicates);
      if |duplicates| == 0 || s.actionMode.NoAction? then (fs, Ran(scan, hardlinks, duplicates, wasted, NotAsked))
      else if !Confirmed(s.dryRun, s.confirmations, answers) then (fs, Ran(scan, hardlinks, duplicates, wasted, Cancelled))
      else
        var (f, outcome) := Performed(fs, s, env, duplicates, stamp);
        (f, Ran(scan, hardlinks, duplicates, wasted, Acted(outcome)))
  }

  /**
   * `walk` is what `os.walk` of the configured directory yields, `answers`
   * the replies to the final prompts, `stamp` the clock reading used for
   * quarantine names.
   */
  method RunScanAndProcess(cfg: Config, disk: Disk, env: Env, walk: seq<Path>, answers: seq<bool>, stamp: nat)
    returns (r: RunResult)
    modifies disk, cfg`partialHash
    ensures cfg.Value() == old(cfg.Value())
    ensures (disk.fs, r) == RunPipeline(old(disk.fs), old(cfg.Value()), env, walk, answers, stamp)
  {
    if |cfg.directory| == 0 {
      return NotConfigured;
    }
    var s := cfg.Value();
    var scan, hardlinks, duplicates := Detect(cfg, disk.fs, env, walk);
    var wasted := CalculateWastedSpace(duplicates, s, disk.fs, env);
    if |duplicates| == 0 || s.actionMode.NoAction? {
      return Ran(scan, hardlinks, duplicates, wasted, NotAsked);
    }
    var confirmed := ConfirmGate(s.dryRun, s.confirmations, answers);
    if !confirmed {
      return Ran(scan, hardlinks, duplicates, wasted, Cancelled);
    }
    var outcome := PerformActions(disk, duplicates, s, env, stamp);
    r := Ran(scan, hardlinks, duplicates, wasted, Acted(outcome));
  }

  /** Steps 1 to 3: the size scan, the optional hardlink split and the hashing. */
  method Detect(cfg: Config, fs: Fs, env: Env, walk: seq<Path>)
    returns (scan: ScanResult, hardlinks: Dict<FileKey, seq<Path>>, duplicates: Dict<Digest, seq<Path>>)
    modifies cfg`partialHash
    ensures cfg.Value() == old(cfg.Value())
    ensures var s := old(cfg.Value());
      scan == ScanResult(PotentialDuplicates(fs, s, env, walk), |SizeItems(fs, s, env, walk)|, |UnreadableEntries(fs, s, env, walk)|) &&
      hardlinks == (if s.checkHardlinks then Identify(fs, s, env, scan.buckets).hardlinks else []) &&
      duplicates == DuplicatesByHash(fs, s, env, ToHash(fs, s, env, walk))
  {
    var s := cfg.Value();
    scan := FindPotentialDuplicatesBySize(fs, s, env, walk);
    var groupsToHash := scan.buckets;
    hardlinks := [];
    if s.checkHardlinks {
      var h := IdentifyHardlinks(fs, s, env, scan.buckets);
      groupsToHash, hardlinks := h.toCheck, h.hardlinks;
    }
    duplicates := IdentifyDuplicatesByHash(groupsToHash, cfg, fs, env);
  }

  // ----- what a run promises -----

  /** A dry run, or a real run the user does not confirm, leaves the filesystem as it was. */
  lemma RunChangesOnlyWhenConfirmed(fs: Fs, s: Settings, env: Env, walk: seq<Path>, answers: seq<bool>, stamp: nat)
    requires s.dryRun || !Confirmed(s.dryRun, s.confirmations, answers)
    ensures RunPipeline(fs, s, env, walk, answers, stamp).0 == fs
    ensures s.dryRun && RunPipeline(fs, s, env, walk, answers, stamp).1.Ran? ==>
      !RunPipeline(fs, s, env, walk, answers, stamp).1.action.Cancelled?
  {
    if s.dryRun && |s.directory| > 0 {
      DryRunUnchanged(fs, s, env, DuplicatesByHash(fs, s, env, ToHash(fs, s, env, walk)), stamp);
    }
  }

  /** Every path the hashing stage sees was walked, is a file, and `lstat`s to its bucket's size, at least the minimum. */
  lemma ToHashCandidates(fs: Fs, s: Settings, env: Env, walk: seq<Path>, p: Path)
    requires p in Flatten(ToHash(fs, s, env, walk))
    ensures var norm := NormalizePath(p, s, env);
      p in walk && IsFile(fs, norm) && Lstat(fs, norm).Stat? && Lstat(fs, norm).size >= s.minSize
  {
    var buckets := PotentialDuplicates(fs, s, env, walk);
    var groups := ToHash(fs, s, env, walk);
    FlattenMembers(groups);
    var e :| e in groups && p in e.1;
    BucketsAreCandidates(fs, s, env, walk);
    if s.checkHardlinks {
      ToCheckSound(fs, s, env, buckets);
      var b :| b in buckets && b.0 == e.0 && e.1 == Residual(fs, s, env, b.1);
      BucketPartition(fs, s, env, b.1);
      assert p in multiset(Residual(fs, s, env, b.1));
      assert p in multiset(b.1);
    }
  }

  /**
   * Every reported set has two or more paths under a non-empty digest, and
   * each of them was walked, is a file of at least the minimum size, could
   * be read, and has content hashing to that digest.
   */
  lemma ReportedAreDuplicates(fs: Fs, s: Settings, env: Env, walk: seq<Path>)
    ensures forall e :: e in DuplicatesByHash(fs, s, env, ToHash(fs, s, env, walk)) ==>
      |e.1| >= 2 && |e.0| > 0 &&
      forall p :: p in e.1 ==>
        var norm := NormalizePath(p, s, env);
        p in walk && IsFile(fs, norm) && Lstat(fs, norm).Stat? && Lstat(fs, norm).size >= s.minSize &&
        ReadContent(fs, norm).Some? && env.digest(ReadContent(fs, norm).value) == e.0
  {
    var groups := ToHash(fs, s, env, walk);
    DuplicatesSound(fs, s, env, groups);
    forall e, p | e in DuplicatesByHash(fs, s, env, groups) && p in e.1
      ensures var norm := NormalizePath(p, s, env);
        p in walk && IsFile(fs, norm) && Lstat(fs, norm).Stat? && Lstat(fs, norm).size >= s.minSize
    {
      ToHashCandidates(fs, s, env, walk, p);
    }
  }
}
