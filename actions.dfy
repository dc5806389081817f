/**
 * `perform_actions`: for every duplicate set of at least two paths, keep
 * one path and delete, quarantine or re-link the others, one path at a
 * time.  A path whose `lstat` or action raises is logged and skipped, and
 * the rest go on; only paths whose `lstat` and action both succeed are
 * counted, with their `lstat` size.  A dry run only counts.
 */
module Actions {
  import opened Wrappers
  import opened Paths
  import opened FileSystem
  import opened Configuration
  import opened Dicts
  import opened Keep
  import opened Waste

  /**
   * `(total_processed_count, total_saved_size)`, or `Aborted` when an
   * exception escapes before the loop: the quarantine directory is unset
   * (`os.path.exists(None)` raises) or `os.makedirs` fails.
   */
  datatype Outcome = Aborted | Done(count: nat, saved: nat)

  /** The running state of the loops: the disk and the two counters. */
  datatype Tally = Tally(fs: Fs, count: nat, saved: nat)

  /**
   * Where quarantine moves `file`: `q/basename`, or `q/base_<stamp>ext`
   * when `q/basename` exists; the stamped name is not checked again.
   */
  function QuarantineDest(fs: Fs, q: Path, file: Path, stamp: nat): Path
  {
    var plain := Join(q, Basename(file));
    if Exists(fs, plain) then Join(q, StampedName(Basename(file), stamp)) else plain
  }

  /** An effect's new filesystem and whether it succeeded; a failed call changes nothing. */
  function Effect(fs: Fs, r: Option<Fs>): (Fs, bool)
  {
    match r
    case Some(f) => (f, true)
    case None => (fs, false)
  }

  /**
   * The action of a real run on the normalized path `np`.  Link mode
   * removes first: a failing link afterwards leaves the path removed.
   * Modes other than delete, quarantine and link do nothing and succeed.
   */
  function Apply(fs: Fs, s: Settings, env: Env, keepNorm: Path, file: Path, np: Path, stamp: nat): (Fs, bool)
  {
    match s.actionMode
    case Delete => Effect(fs, RemoveFile(fs, np))
    case Quarantine =>
      if s.quarantinePath.None? then (fs, false)
      else Effect(fs, MoveFile(fs, np, QuarantineDest(fs, s.quarantinePath.value, file, stamp)))
    case Link =>
      (match RemoveFile(fs, np)
       case None => (fs, false)
       case Some(f) => Effect(f, HardLink(f, keepNorm, np, CanLink(env))))
    case _ => (fs, true)
  }

  /** The body of the `try` for one path: the new filesystem and, when counted, the size added. */
  function ActOn(fs: Fs, s: Settings, env: Env, keepNorm: Path, file: Path, stamp: nat): (r: (Fs, Option<nat>))
    ensures r.1.Some? ==> Lstat(fs, NormalizePath(file, s, env)) == Stat(r.1.value)
    ensures r.1.None? && !(s.actionMode.Link? && !s.dryRun) ==> r.0 == fs
    ensures s.dryRun ==> r.0 == fs
  {
    var np := NormalizePath(file, s, env);
    match Lstat(fs, np)
    case Stat(size) =>
      if s.dryRun then (fs, Some(size))
      else
        var (f, ok) := Apply(fs, s, env, keepNorm, file, np, stamp);
        (f, if ok then Some(size) else None)
    case _ => (fs, None)
  }

  /** The loop over one set's `process_list`. */
  function ProcessFiles(fs: Fs, s: Settings, env: Env, keepNorm: Path, files: seq<Path>, stamp: nat): Tally
  {
    if |files| == 0 then Tally(fs, 0, 0)
    else
      var before := ProcessFiles(fs, s, env, keepNorm, files[..|files| - 1], stamp);
      Record(before, ActOn(before.fs, s, env, keepNorm, files[|files| - 1], stamp))
  }

  /** The tally after one path: the new filesystem, and the counters advanced when the path was counted. */
  function Record(before: Tally, act: (Fs, Option<nat>)): Tally
  {
    match act.1
    case Some(size) => Tally(act.0, before.count + 1, before.saved + size)
    case None => Tally(act.0, before.count, before.saved)
  }

  /**
   * The loop over the duplicate sets in dictionary order; the kept path is
   * chosen on the filesystem as the earlier sets have left it.
   */
  function ProcessSets(fs: Fs, s: Settings, env: Env, sets: Dict<Digest, seq<Path>>, stamp: nat): Tally
  {
    if |sets| == 0 then Tally(fs, 0, 0)
    else
      var before := ProcessSets(fs, s, env, sets[..|sets| - 1], stamp);
      ProcessSet(before, s, env, sets[|sets| - 1].1, stamp)
  }

  /** The tally after one set: sets of fewer than two paths are skipped. */
  function ProcessSet(before: Tally, s: Settings, env: Env, fileList: seq<Path>, stamp: nat): Tally
  {
    if |fileList| < 2 then before
    else
      var (keep, process) := SelectFileToKeep(before.fs, s, env, fileList, s.keepStrategy);
      var r := ProcessFiles(before.fs, s, env, NormalizePath(keep, s, env), process, stamp);
      Tally(r.fs, before.count + r.count, before.saved + r.saved)
  }

  /** The filesystem the loop starts on: a real quarantine run first makes sure the directory exists. */
  function Prepared(fs: Fs, s: Settings): Option<Fs>
  {
    if s.dryRun || !s.actionMode.Quarantine? then Some(fs)
    else match s.quarantinePath
      case None => None
      case Some(q) =>
        if Exists(fs, q) then Some(fs)
        else match MakeDirs(fs, q)
          case Made(f) => Some(f)
          case _ => None
  }

  /** `perform_actions` on a filesystem value: the final filesystem and the outcome. */
  function Performed(fs: Fs, s: Settings, env: Env, duplicates: Dict<Digest, seq<Path>>, stamp: nat): (Fs, Outcome)
  {
    if |duplicates| == 0 || s.actionMode.NoAction? then (fs, Done(0, 0))
    else match Prepared(fs, s)
      case None => (fs, Aborted)
      case Some(start) =>
        var r := ProcessSets(start, s, env, duplicates, stamp);
        (r.fs, Done(r.count, r.saved))
  }

  // ----- the executor on the disk -----

  method ActOnFile(disk: Disk, s: Settings, env: Env, keepNorm: Path, file: Path, stamp: nat) returns (counted: Option<nat>)
    modifies disk
    ensures (disk.fs, counted) == ActOn(old(disk.fs), s, env, keepNorm, file, stamp)
  {
    var np := NormalizePath(file, s, env);
    match Lstat(disk.fs, np) {
      case Stat(size) =>
        var ok := true;
        if !s.dryRun {
          match s.actionMode {
            case Delete =>
              ok := disk.Remove(np);
            case Quarantine =>
              if s.quarantinePath.None? {
                ok := false;
              } else {
                var dest := QuarantineDest(disk.fs, s.quarantinePath.value, file, stamp);
                ok := disk.Move(np, dest);
              }
            case Link =>
              ok := disk.Remove(np);
              if ok {
                ok := disk.Link(keepNorm, np, CanLink(env));
              }
            case _ =>
          }
        }
        counted := if ok then Some(size) else None;
      case _ =>
        counted := None;
    }
  }

  method ProcessFileList(disk: Disk, s: Settings, env: Env, keepNorm: Path, files: seq<Path>, stamp: nat)
    returns (count: nat, saved: nat)
    modifies disk
    ensures Tally(disk.fs, count, saved) == ProcessFiles(old(disk.fs), s, env, keepNorm, files, stamp)
  {
    count, saved := 0, 0;
    var i := 0;
    while i < |files|
      invariant 0 <= i <= |files|
      invariant Tally(disk.fs, count, saved) == ProcessFiles(old(disk.fs), s, env, keepNorm, files[..i], stamp)
    {
      ProcessFilesNext(old(disk.fs), s, env, keepNorm, files, i, stamp);
      var counted := ActOnFile(disk, s, env, keepNorm, files[i], stamp);
      if counted.Some? {
        count, saved := count + 1, saved + counted.value;
      }
      i := i + 1;
    }
    assert files[..|files|] == files;
  }

  method PerformActions(disk: Disk, duplicates: Dict<Digest, seq<Path>>, s: Settings, env: Env, stamp: nat)
    returns (outcome: Outcome)
    modifies disk
    ensures (disk.fs, outcome) == Performed(old(disk.fs), s, env, duplicates, stamp)
  {
    if |duplicates| == 0 || s.actionMode.NoAction? {
      return Done(0, 0);
    }
    if !s.dryRun && s.actionMode.Quarantine? {
      if s.quarantinePath.None? {
        return Aborted;
      }
      var q := s.quarantinePath.value;
      if !Exists(disk.fs, q) {
        var ok := disk.MakeDirectory(q);
        if !ok {
          return Aborted;
        }
      }
    }
    assert Prepared(old(disk.fs), s) == Some(disk.fs);
    var count, saved := ProcessAllSets(disk, duplicates, s, env, stamp);
    outcome := Done(count, saved);
  }

  /** The loop over the sets, after the quarantine directory is in place. */
  method ProcessAllSets(disk: Disk, duplicates: Dict<Digest, seq<Path>>, s: Settings, env: Env, stamp: nat)
    returns (count: nat, saved: nat)
    modifies disk
    ensures Tally(disk.fs, count, saved) == ProcessSets(old(disk.fs), s, env, duplicates, stamp)
  {
    count, saved := 0, 0;
    var i := 0;
    while i < |duplicates|
      invariant 0 <= i <= |duplicates|
      invariant Tally(disk.fs, count, saved) == ProcessSets(old(disk.fs), s, env, duplicates[..i], stamp)
    {
      ProcessSetsNext(old(disk.fs), s, env, duplicates, i, stamp);
      count, saved := ProcessDuplicateSet(disk, duplicates[i].1, s, env, stamp, count, saved);
      i := i + 1;
    }
    assert duplicates[..|duplicates|] == duplicates;
  }

  /** The body of the loop over the sets: one set, added to the running counters. */
  method ProcessDuplicateSet(disk: Disk, fileList: seq<Path>, s: Settings, env: Env, stamp: nat, count0: nat, saved0: nat)
    returns (count: nat, saved: nat)
    modifies disk
    ensures Tally(disk.fs, count, saved) == ProcessSet(Tally(old(disk.fs), count0, saved0), s, env, fileList, stamp)
  {
    count, saved := count0, saved0;
    if |fileList| >= 2 {
      var (keep, process) := SelectFileToKeep(disk.fs, s, env, fileList, s.keepStrategy);
      var c, b := ProcessFileList(disk, s, env, NormalizePath(keep, s, env), process, stamp);
      count, saved := count + c, saved + b;
    }
  }

  /** The fold over the paths, one path further. */
  lemma ProcessFilesNext(fs: Fs, s: Settings, env: Env, keepNorm: Path, files: seq<Path>, i: nat, stamp: nat)
    requires i < |files|
    ensures var before := ProcessFiles(fs, s, env, keepNorm, files[..i], stamp);
      ProcessFiles(fs, s, env, keepNorm, files[..i + 1], stamp)
        == Record(before, ActOn(before.fs, s, env, keepNorm, files[i], stamp))
  {
    assert files[..i + 1][..i] == files[..i];
  }

  /** The fold over the sets, one set further. */
  lemma ProcessSetsNext(fs: Fs, s: Settings, env: Env, sets: Dict<Digest, seq<Path>>, i: nat, stamp: nat)
    requires i < |sets|
    ensures ProcessSets(fs, s, env, sets[..i + 1], stamp)
      == ProcessSet(ProcessSets(fs, s, env, sets[..i], stamp), s, env, sets[i].1, stamp)
  {
    assert sets[..i + 1][..i] == sets[..i];
  }

  // ----- what the executor promises -----

  /** Failures in earlier paths reach later ones only through the filesystem: the loop is a fold. */
  lemma {:induction false} ProcessFilesConcat(fs: Fs, s: Settings, env: Env, keepNorm: Path, a: seq<Path>, b: seq<Path>, stamp: nat)
    ensures var ra := ProcessFiles(fs, s, env, keepNorm, a, stamp);
      var rb := ProcessFiles(ra.fs, s, env, keepNorm, b, stamp);
      ProcessFiles(fs, s, env, keepNorm, a + b, stamp) == Tally(rb.fs, ra.count + rb.count, ra.saved + rb.saved)
  {
    if |b| == 0 {
      assert a + b == a;
    } else {
      var init, last := b[..|b| - 1], b[|b| - 1];
      ProcessFilesConcat(fs, s, env, keepNorm, a, init, stamp);
      assert (a + b)[..|a + b| - 1] == a + init;
      assert (a + b)[|a + b| - 1] == last;
      var ra := ProcessFiles(fs, s, env, keepNorm, a, stamp);
      var ri := ProcessFiles(ra.fs, s, env, keepNorm, init, stamp);
      assert ProcessFiles(fs, s, env, keepNorm, a + b, stamp) ==
        Record(ProcessFiles(fs, s, env, keepNorm, a + init, stamp), ActOn(ri.fs, s, env, keepNorm, last, stamp));
      RecordShift(ri, ActOn(ri.fs, s, env, keepNorm, last, stamp), ra.count, ra.saved);
    }
  }

  /** Recording a path on a tally with extra counts gives the same extra counts. */
  lemma RecordShift(t: Tally, act: (Fs, Option<nat>), count: nat, saved: nat)
    ensures var r := Record(t, act);
      Record(Tally(t.fs, count + t.count, saved + t.saved), act) == Tally(r.fs, count + r.count, saved + r.saved)
  {
  }

  /** No more paths are counted than the sets hold beyond their kept path. */
  lemma {:induction false} FilesCountBounded(fs: Fs, s: Settings, env: Env, keepNorm: Path, files: seq<Path>, stamp: nat)
    ensures ProcessFiles(fs, s, env, keepNorm, files, stamp).count <= |files|
  {
    if |files| > 0 {
      FilesCountBounded(fs, s, env, keepNorm, files[..|files| - 1], stamp);
    }
  }

  lemma {:induction false} SetsCountBounded(fs: Fs, s: Settings, env: Env, sets: Dict<Digest, seq<Path>>, stamp: nat)
    ensures ProcessSets(fs, s, env, sets, stamp).count <= Excess(sets)
  {
    if |sets| > 0 {
      var init := sets[..|sets| - 1];
      SetsCountBounded(fs, s, env, init, stamp);
      var before := ProcessSets(fs, s, env, init, stamp);
      var fileList := sets[|sets| - 1].1;
      if |fileList| >= 2 {
        var (keep, process) := SelectFileToKeep(before.fs, s, env, fileList, s.keepStrategy);
        KeepPartition(before.fs, s, env, fileList, s.keepStrategy);
        FilesCountBounded(before.fs, s, env, NormalizePath(keep, s, env), process, stamp);
      }
    }
  }

  /**
   * The count never exceeds the number of paths in sets of two or more,
   * less one kept path per set; no sets or mode `none` give `(0, 0)`.
   */
  lemma CountBounded(fs: Fs, s: Settings, env: Env, duplicates: Dict<Digest, seq<Path>>, stamp: nat)
    ensures |duplicates| == 0 || s.actionMode.NoAction? ==> Performed(fs, s, env, duplicates, stamp) == (fs, Done(0, 0))
    ensures Performed(fs, s, env, duplicates, stamp).1.Done? ==> Performed(fs, s, env, duplicates, stamp).1.count <= Excess(duplicates)
  {
    if |duplicates| > 0 && !s.actionMode.NoAction? && Prepared(fs, s).Some? {
      SetsCountBounded(Prepared(fs, s).value, s, env, duplicates, stamp);
    }
  }

  /** Every path of a set the loop does not skip is a path it may touch. */
  lemma ProcessSubset(fs: Fs, s: Settings, env: Env, fileList: seq<Path>, x: Path)
    requires |fileList| > 0
    requires x in SelectFileToKeep(fs, s, env, fileList, s.keepStrategy).1
    ensures x in fileList
  {
    var (keep, process) := SelectFileToKeep(fs, s, env, fileList, s.keepStrategy);
    KeepPartition(fs, s, env, fileList, s.keepStrategy);
    assert x in multiset([keep] + process);
  }

  // dry run

  /** In a dry run a path is counted, with its size, exactly when it can be `lstat`-ed. */
  lemma ActOnDry(fs: Fs, s: Settings, env: Env, keepNorm: Path, file: Path, stamp: nat)
    requires s.dryRun
    ensures var st := Lstat(fs, NormalizePath(file, s, env));
      ActOn(fs, s, env, keepNorm, file, stamp) == (fs, if st.Stat? then Some(st.size) else None)
  {
  }

  lemma {:induction false} DryFilesUnchanged(fs: Fs, s: Settings, env: Env, keepNorm: Path, files: seq<Path>, stamp: nat)
    requires s.dryRun
    ensures ProcessFiles(fs, s, env, keepNorm, files, stamp).fs == fs
  {
    if |files| > 0 {
      DryFilesUnchanged(fs, s, env, keepNorm, files[..|files| - 1], stamp);
    }
  }

  lemma {:induction false} DrySetsUnchanged(fs: Fs, s: Settings, env: Env, sets: Dict<Digest, seq<Path>>, stamp: nat)
    requires s.dryRun
    ensures ProcessSets(fs, s, env, sets, stamp).fs == fs
  {
    if |sets| > 0 {
      var init := sets[..|sets| - 1];
      DrySetsUnchanged(fs, s, env, init, stamp);
      var fileList := sets[|sets| - 1].1;
      if |fileList| >= 2 {
        var (keep, process) := SelectFileToKeep(fs, s, env, fileList, s.keepStrategy);
        DryFilesUnchanged(fs, s, env, NormalizePath(keep, s, env), process, stamp);
      }
    }
  }

  /** A dry run leaves the filesystem as it was (and creates no quarantine directory) and always finishes. */
  lemma DryRunUnchanged(fs: Fs, s: Settings, env: Env, duplicates: Dict<Digest, seq<Path>>, stamp: nat)
    requires s.dryRun
    ensures Performed(fs, s, env, duplicates, stamp).0 == fs
    ensures Performed(fs, s, env, duplicates, stamp).1.Done?
  {
    DrySetsUnchanged(fs, s, env, duplicates, stamp);
  }

  /** How many of `files` `lstat` successfully once normalized. */
  function StatCount(fs: Fs, s: Settings, env: Env, files: seq<Path>): nat
  {
    if |files| == 0 then 0
    else
      StatCount(fs, s, env, files[..|files| - 1])
        + (if Lstat(fs, NormalizePath(files[|files| - 1], s, env)).Stat? then 1 else 0)
  }

  /** The `lstat` sizes of those paths, summed. */
  function StatBytes(fs: Fs, s: Settings, env: Env, files: seq<Path>): nat
  {
    if |files| == 0 then 0
    else
      StatBytes(fs, s, env, files[..|files| - 1])
        + match Lstat(fs, NormalizePath(files[|files| - 1], s, env)) { case Stat(size) => size case _ => 0 }
  }

  /** The paths `select_file_to_keep` leaves to process in a set, chosen on `fs`. */
  function ProcessList(fs: Fs, s: Settings, env: Env, fileList: seq<Path>): seq<Path>
  {
    SelectFileToKeep(fs, s, env, fileList, s.keepStrategy).1
  }

  /** Over the sets of two or more: how many of the paths left to process `lstat` successfully. */
  function DryCount(fs: Fs, s: Settings, env: Env, sets: Dict<Digest, seq<Path>>): nat
  {
    if |sets| == 0 then 0
    else
      var fileList := sets[|sets| - 1].1;
      DryCount(fs, s, env, sets[..|sets| - 1])
        + (if |fileList| >= 2 then StatCount(fs, s, env, ProcessList(fs, s, env, fileList)) else 0)
  }

  /** Over the sets of two or more: the `lstat` sizes of the paths left to process, summed. */
  function DryBytes(fs: Fs, s: Settings, env: Env, sets: Dict<Digest, seq<Path>>): nat
  {
    if |sets| == 0 then 0
    else
      var fileList := sets[|sets| - 1].1;
      DryBytes(fs, s, env, sets[..|sets| - 1])
        + (if |fileList| >= 2 then StatBytes(fs, s, env, ProcessList(fs, s, env, fileList)) else 0)
  }

  lemma {:induction false} DryFilesTotals(fs: Fs, s: Settings, env: Env, keepNorm: Path, files: seq<Path>, stamp: nat)
    requires s.dryRun
    ensures ProcessFiles(fs, s, env, keepNorm, files, stamp) == Tally(fs, StatCount(fs, s, env, files), StatBytes(fs, s, env, files))
  {
    if |files| > 0 {
      DryFilesTotals(fs, s, env, keepNorm, files[..|files| - 1], stamp);
      ActOnDry(fs, s, env, keepNorm, files[|files| - 1], stamp);
    }
  }

  lemma {:induction false} DrySetsTotals(fs: Fs, s: Settings, env: Env, sets: Dict<Digest, seq<Path>>, stamp: nat)
    requires s.dryRun
    ensures ProcessSets(fs, s, env, sets, stamp) == Tally(fs, DryCount(fs, s, env, sets), DryBytes(fs, s, env, sets))
  {
    if |sets| > 0 {
      DrySetsTotals(fs, s, env, sets[..|sets| - 1], stamp);
      var fileList := sets[|sets| - 1].1;
      if |fileList| >= 2 {
        var (keep, process) := SelectFileToKeep(fs, s, env, fileList, s.keepStrategy);
        DryFilesTotals(fs, s, env, NormalizePath(keep, s, env), process, stamp);
      }
    }
  }

  /**
   * A dry run in any mode but `none` changes nothing and reports, over the
   * sets of two or more, the number of paths left to process whose `lstat`
   * succeeds and the sum of their `lstat` sizes.
   */
  lemma DryRunTotals(fs: Fs, s: Settings, env: Env, duplicates: Dict<Digest, seq<Path>>, stamp: nat)
    requires s.dryRun && !s.actionMode.NoAction?
    ensures Performed(fs, s, env, duplicates, stamp) ==
      (fs, Done(DryCount(fs, s, env, duplicates), DryBytes(fs, s, env, duplicates)))
  {
    DrySetsTotals(fs, s, env, duplicates, stamp);
  }

  lemma {:induction false} StatCountAll(fs: Fs, s: Settings, env: Env, files: seq<Path>)
    requires forall x :: x in files ==> Lstat(fs, NormalizePath(x, s, env)).Stat?
    ensures StatCount(fs, s, env, files) == |files|
  {
    if |files| > 0 {
      StatCountAll(fs, s, env, files[..|files| - 1]);
      assert files[|files| - 1] in files;
    }
  }

  lemma {:induction false} DryCountAll(fs: Fs, s: Settings, env: Env, sets: Dict<Digest, seq<Path>>)
    requires forall e, x :: e in sets && |e.1| >= 2 && x in e.1 ==> Lstat(fs, NormalizePath(x, s, env)).Stat?
    ensures DryCount(fs, s, env, sets) == Excess(sets)
  {
    if |sets| > 0 {
      var init := sets[..|sets| - 1];
      assert forall e :: e in init ==> e in sets;
      DryCountAll(fs, s, env, init);
      var fileList := sets[|sets| - 1].1;
      if |fileList| >= 2 {
        assert sets[|sets| - 1] in sets;
        var process := ProcessList(fs, s, env, fileList);
        KeepPartition(fs, s, env, fileList, s.keepStrategy);
        forall x | x in process ensures Lstat(fs, NormalizePath(x, s, env)).Stat? {
          ProcessSubset(fs, s, env, fileList, x);
        }
        StatCountAll(fs, s, env, process);
      }
    }
  }

  /**
   * When every path of every set of two or more can be `lstat`-ed, a dry
   * run counts every path but the kept one of each such set, and reports
   * their `lstat` sizes summed.
   */
  lemma DryRunCount(fs: Fs, s: Settings, env: Env, duplicates: Dict<Digest, seq<Path>>, stamp: nat)
    requires s.dryRun && !s.actionMode.NoAction?
    requires forall e, x :: e in duplicates && |e.1| >= 2 && x in e.1 ==> Lstat(fs, NormalizePath(x, s, env)).Stat?
    ensures Performed(fs, s, env, duplicates, stamp) == (fs, Done(Excess(duplicates), DryBytes(fs, s, env, duplicates)))
  {
    DryRunTotals(fs, s, env, duplicates, stamp);
    DryCountAll(fs, s, env, duplicates);
  }

  lemma {:induction false} DryFilesSaved(fs: Fs, s: Settings, env: Env, keepNorm: Path, files: seq<Path>, stamp: nat, size: nat)
    requires s.dryRun
    requires forall x :: x in files ==> Lstat(fs, NormalizePath(x, s, env)) == Stat(size)
    ensures ProcessFiles(fs, s, env, keepNorm, files, stamp) == Tally(fs, |files|, size * |files|)
  {
    if |files| > 0 {
      var n := |files| - 1;
      DryFilesUnchanged(fs, s, env, keepNorm, files[..n], stamp);
      DryFilesSaved(fs, s, env, keepNorm, files[..n], stamp, size);
      assert files[n] in files;
      ActOnDry(fs, s, env, keepNorm, files[n], stamp);
      Distribute(size, n, 1);
    }
  }

  /** One set of a dry run whose paths share one size. */
  lemma DrySetSaved(fs: Fs, s: Settings, env: Env, fileList: seq<Path>, stamp: nat, size: nat)
    requires s.dryRun && |fileList| >= 2 && Uniform(fs, s, env, fileList, size)
    ensures var (keep, process) := SelectFileToKeep(fs, s, env, fileList, s.keepStrategy);
      ProcessFiles(fs, s, env, NormalizePath(keep, s, env), process, stamp) ==
        Tally(fs, |fileList| - 1, SetWaste(fs, s, env, fileList))
  {
    var (keep, process) := SelectFileToKeep(fs, s, env, fileList, s.keepStrategy);
    KeepPartition(fs, s, env, fileList, s.keepStrategy);
    forall x | x in process ensures Lstat(fs, NormalizePath(x, s, env)) == Stat(size) {
      ProcessSubset(fs, s, env, fileList, x);
    }
    DryFilesSaved(fs, s, env, NormalizePath(keep, s, env), process, stamp, size);
    UniformSetWaste(fs, s, env, fileList, size);
  }

  lemma {:induction false} DrySetsSaved(fs: Fs, s: Settings, env: Env, sets: Dict<Digest, seq<Path>>, stamp: nat)
    requires s.dryRun
    requires forall e :: e in sets && |e.1| >= 2 ==> exists size :: Uniform(fs, s, env, e.1, size)
    ensures ProcessSets(fs, s, env, sets, stamp) == Tally(fs, Excess(sets), Wasted(fs, s, env, sets))
  {
    if |sets| > 0 {
      var init := sets[..|sets| - 1];
      assert forall e :: e in init ==> e in sets;
      DrySetsSaved(fs, s, env, init, stamp);
      var fileList := sets[|sets| - 1].1;
      if |fileList| >= 2 {
        assert sets[|sets| - 1] in sets;
        var size :| Uniform(fs, s, env, fileList, size);
        DrySetStep(fs, s, env, ProcessSets(fs, s, env, init, stamp), fileList, stamp, size);
      } else {
        SingleSetWaste(fs, s, env, fileList);
      }
    }
  }

  /** One more uniform set on a dry run adds its extra copies and its waste. */
  lemma DrySetStep(fs: Fs, s: Settings, env: Env, before: Tally, fileList: seq<Path>, stamp: nat, size: nat)
    requires s.dryRun && before.fs == fs && |fileList| >= 2 && Uniform(fs, s, env, fileList, size)
    ensures ProcessSet(before, s, env, fileList, stamp) ==
      Tally(fs, before.count + (|fileList| - 1), before.saved + SetWaste(fs, s, env, fileList))
  {
    DrySetSaved(fs, s, env, fileList, stamp, size);
  }

  /**
   * When each set of two or more `lstat`s to one size of at least the
   * minimum, a dry run reports exactly the count of extra copies and the
   * space `calculate_wasted_space` computes.
   */
  lemma DryRunMatchesWaste(fs: Fs, s: Settings, env: Env, duplicates: Dict<Digest, seq<Path>>, stamp: nat)
    requires s.dryRun && !s.actionMode.NoAction?
    requires forall e :: e in duplicates && |e.1| >= 2 ==> exists size :: Uniform(fs, s, env, e.1, size)
    ensures Performed(fs, s, env, duplicates, stamp) == (fs, Done(Excess(duplicates), Wasted(fs, s, env, duplicates)))
  {
    DrySetsSaved(fs, s, env, duplicates, stamp);
  }

  // delete

  /** `after` is `before` with `removed` entries taken away and nothing else changed. */
  ghost predicate Shrunk(before: Fs, after: Fs, removed: nat)
  {
    after.Keys <= before.Keys && (forall p :: p in after ==> after[p] == before[p]) &&
    |before.Keys| == |after.Keys| + removed
  }

  lemma ShrunkTrans(a: Fs, b: Fs, c: Fs, m: nat, n: nat)
    requires Shrunk(a, b, m) && Shrunk(b, c, n)
    ensures Shrunk(a, c, m + n)
  {
  }

  lemma RemoveShrinks(fs: Fs, np: Path)
    requires np in fs
    ensures Shrunk(fs, fs - {np}, 1)
  {
    assert (fs - {np}).Keys == fs.Keys - {np};
    assert fs.Keys == (fs.Keys - {np}) + {np};
  }

  /** In a real delete run a counted path was an entry and is removed; an uncounted one changes nothing. */
  lemma ActOnDelete(fs: Fs, s: Settings, env: Env, keepNorm: Path, file: Path, stamp: nat)
    requires !s.dryRun && s.actionMode.Delete?
    ensures var np := NormalizePath(file, s, env);
      var (f, counted) := ActOn(fs, s, env, keepNorm, file, stamp);
      (counted.Some? ==> np in fs && f == fs - {np}) && (counted.None? ==> f == fs)
  {
  }

  lemma {:induction false} DeleteFiles(fs: Fs, s: Settings, env: Env, keepNorm: Path, files: seq<Path>, stamp: nat)
    requires !s.dryRun && s.actionMode.Delete?
    ensures var r := ProcessFiles(fs, s, env, keepNorm, files, stamp); Shrunk(fs, r.fs, r.count)
  {
    if |files| > 0 {
      var before := ProcessFiles(fs, s, env, keepNorm, files[..|files| - 1], stamp);
      DeleteFiles(fs, s, env, keepNorm, files[..|files| - 1], stamp);
      var np := NormalizePath(files[|files| - 1], s, env);
      var (f, counted) := ActOn(before.fs, s, env, keepNorm, files[|files| - 1], stamp);
      ActOnDelete(before.fs, s, env, keepNorm, files[|files| - 1], stamp);
      if counted.Some? {
        RemoveShrinks(before.fs, np);
        ShrunkTrans(fs, before.fs, f, before.count, 1);
      }
    }
  }

  lemma {:induction false} DeleteSets(fs: Fs, s: Settings, env: Env, sets: Dict<Digest, seq<Path>>, stamp: nat)
    requires !s.dryRun && s.actionMode.Delete?
    ensures var r := ProcessSets(fs, s, env, sets, stamp); Shrunk(fs, r.fs, r.count)
  {
    if |sets| > 0 {
      var init := sets[..|sets| - 1];
      DeleteSets(fs, s, env, init, stamp);
      var before := ProcessSets(fs, s, env, init, stamp);
      var fileList := sets[|sets| - 1].1;
      if |fileList| >= 2 {
        var (keep, process) := SelectFileToKeep(before.fs, s, env, fileList, s.keepStrategy);
        var keepNorm := NormalizePath(keep, s, env);
        DeleteFiles(before.fs, s, env, keepNorm, process, stamp);
        var r := ProcessFiles(before.fs, s, env, keepNorm, process, stamp);
        ShrunkTrans(fs, before.fs, r.fs, before.count, r.count);
      }
    }
  }

  /**
   * A real delete run only removes entries, changes no entry it keeps, and
   * counts exactly the entries it removed.
   */
  lemma DeleteRemovesCounted(fs: Fs, s: Settings, env: Env, duplicates: Dict<Digest, seq<Path>>, stamp: nat)
    requires !s.dryRun && s.actionMode.Delete?
    ensures var (f, outcome) := Performed(fs, s, env, duplicates, stamp);
      outcome.Done? && Shrunk(fs, f, outcome.count)
  {
    DeleteSets(fs, s, env, duplicates, stamp);
  }

  // delete, entry by entry

  /** Whether a real delete removes the entry at `np`: its `lstat` and `os.remove` both succeed. */
  predicate Removable(fs: Fs, np: Path)
  {
    Lstat(fs, np).Stat? && RemoveFile(fs, np).Some?
  }

  /** The normalized paths of `files` whose entries a delete removes, in order. */
  function RemovableOf(fs: Fs, s: Settings, env: Env, files: seq<Path>): seq<Path>
  {
    if |files| == 0 then []
    else
      var np := NormalizePath(files[|files| - 1], s, env);
      RemovableOf(fs, s, env, files[..|files| - 1]) + (if Removable(fs, np) then [np] else [])
  }

  /** Over the sets of two or more: the removable paths among those left to process, chosen on `fs`. */
  function DeletedOf(fs: Fs, s: Settings, env: Env, sets: Dict<Digest, seq<Path>>): seq<Path>
  {
    if |sets| == 0 then []
    else
      var fileList := sets[|sets| - 1].1;
      DeletedOf(fs, s, env, sets[..|sets| - 1])
        + (if |fileList| >= 2 then RemovableOf(fs, s, env, ProcessList(fs, s, env, fileList)) else [])
  }

  /** The sizes of the entries at `paths`, summed. */
  function SizeOf(fs: Fs, paths: seq<Path>): nat
  {
    if |paths| == 0 then 0
    else
      var last := paths[|paths| - 1];
      SizeOf(fs, paths[..|paths| - 1]) + (if last in fs then fs[last].size else 0)
  }

  ghost function Elements(paths: seq<Path>): set<Path>
  {
    set p | p in paths
  }

  ghost function NormSet(s: Settings, env: Env, paths: seq<Path>): set<Path>
  {
    set x | x in paths :: NormalizePath(x, s, env)
  }

  /** No path occurs twice, and no two paths normalize to one. */
  ghost predicate DistinctPaths(s: Settings, env: Env, paths: seq<Path>)
  {
    NoDuplicates(paths) &&
    forall x, y :: x in paths && y in paths && NormalizePath(x, s, env) == NormalizePath(y, s, env) ==> x == y
  }

  /**
   * The keep choice cannot shift while a run deletes: the strategy does
   * not look at mtimes, or no path names a symbolic link (whose mtime is
   * that of a target an earlier set may delete).
   */
  ghost predicate SelectionStable(fs: Fs, s: Settings, env: Env, paths: seq<Path>)
  {
    (s.keepStrategy.Oldest? || s.keepStrategy.Newest?) ==>
      forall x :: x in paths && NormalizePath(x, s, env) in fs ==> !fs[NormalizePath(x, s, env)].kind.Symlink?
  }

  /** The kept path of a set has the same entry, or the same absence, after as before. */
  ghost predicate KeptIntact(before: Fs, after: Fs, s: Settings, env: Env, fileList: seq<Path>)
  {
    var kn := NormalizePath(SelectFileToKeep(before, s, env, fileList, s.keepStrategy).0, s, env);
    (kn in after <==> kn in before) && (kn in before ==> after[kn] == before[kn])
  }

  lemma DistinctPrefix(s: Settings, env: Env, paths: seq<Path>, n: nat)
    requires n <= |paths| && DistinctPaths(s, env, paths)
    ensures DistinctPaths(s, env, paths[..n])
  {
    assert forall x :: x in paths[..n] ==> x in paths;
  }

  /** A sub-multiset of distinct paths is distinct. */
  lemma DistinctSub(s: Settings, env: Env, a: seq<Path>, b: seq<Path>)
    requires multiset(a) <= multiset(b) && DistinctPaths(s, env, b)
    ensures DistinctPaths(s, env, a)
  {
    NoDuplicatesCount(b);
    NoDuplicatesCount(a);
    assert forall x :: x in a ==> x in multiset(a);
  }

  /** Both halves of distinct paths are distinct, and no path of one normalizes like a path of the other. */
  lemma DistinctConcat(s: Settings, env: Env, a: seq<Path>, b: seq<Path>)
    requires DistinctPaths(s, env, a + b)
    ensures DistinctPaths(s, env, a) && DistinctPaths(s, env, b)
    ensures forall x, y :: x in a && y in b ==> NormalizePath(x, s, env) != NormalizePath(y, s, env)
  {
    var ab := a + b;
    forall i, j | 0 <= i < j < |a| ensures a[i] != a[j] {
      assert ab[i] == a[i] && ab[j] == a[j];
    }
    assert forall x :: x in a ==> x in ab;
    assert forall x :: x in b ==> x in ab;
    forall i, j | 0 <= i < j < |b| ensures b[i] != b[j] {
      assert ab[|a| + i] == b[i] && ab[|a| + j] == b[j];
    }
    forall x, y | x in a && y in b ensures NormalizePath(x, s, env) != NormalizePath(y, s, env) {
      var i :| 0 <= i < |a| && a[i] == x;
      var j :| 0 <= j < |b| && b[j] == y;
      assert ab[i] == x && ab[|a| + j] == y;
    }
  }

  /** The last path of distinct paths normalizes unlike every earlier one. */
  lemma LastFreshNorm(s: Settings, env: Env, files: seq<Path>)
    requires |files| > 0 && DistinctPaths(s, env, files)
    ensures NormalizePath(files[|files| - 1], s, env) !in NormSet(s, env, files[..|files| - 1])
  {
    var n := |files| - 1;
    forall x | x in files[..n] ensures NormalizePath(x, s, env) != NormalizePath(files[n], s, env) {
      var i :| 0 <= i < n && files[..n][i] == x;
      assert files[i] != files[n];
      assert x in files && files[n] in files;
    }
  }

  lemma SizeOfConcat(fs: Fs, a: seq<Path>, b: seq<Path>)
    ensures SizeOf(fs, a + b) == SizeOf(fs, a) + SizeOf(fs, b)
    decreases |b|
  {
    if |b| > 0 {
      SizeOfConcat(fs, a, b[..|b| - 1]);
      assert (a + b)[..|a + b| - 1] == a + b[..|b| - 1];
    } else {
      assert a + b == a;
    }
  }

  /** Entries outside `gone` are summed alike after `gone` is removed. */
  lemma {:induction false} SizeOfFrame(fs: Fs, gone: set<Path>, paths: seq<Path>)
    requires forall p :: p in paths ==> p !in gone
    ensures SizeOf(fs - gone, paths) == SizeOf(fs, paths)
  {
    if |paths| > 0 {
      assert forall p :: p in paths[..|paths| - 1] ==> p in paths;
      SizeOfFrame(fs, gone, paths[..|paths| - 1]);
      assert paths[|paths| - 1] in paths;
    }
  }

  /** Removing other entries does not change which of `files` are removable. */
  lemma {:induction false} RemovableFrame(fs: Fs, gone: set<Path>, s: Settings, env: Env, files: seq<Path>)
    requires forall x :: x in files ==> NormalizePath(x, s, env) !in gone
    ensures RemovableOf(fs - gone, s, env, files) == RemovableOf(fs, s, env, files)
  {
    if |files| > 0 {
      assert forall x :: x in files[..|files| - 1] ==> x in files;
      RemovableFrame(fs, gone, s, env, files[..|files| - 1]);
      assert files[|files| - 1] in files;
    }
  }

  lemma {:induction false} RemovableWithin(fs: Fs, s: Settings, env: Env, files: seq<Path>)
    ensures Elements(RemovableOf(fs, s, env, files)) <= NormSet(s, env, files)
  {
    if |files| > 0 {
      var n := |files| - 1;
      var np := NormalizePath(files[n], s, env);
      var before := RemovableOf(fs, s, env, files[..n]);
      RemovableWithin(fs, s, env, files[..n]);
      assert forall x :: x in files[..n] ==> x in files;
      assert np in NormSet(s, env, files) by {
        assert files[n] in files;
      }
      forall q | q in RemovableOf(fs, s, env, files) ensures q in NormSet(s, env, files) {
        if q !in before {
          assert q == np;
        } else {
          assert q in Elements(before);
        }
      }
    }
  }

  /** Removing other entries does not change a path's sort key when that key does not follow a link. */
  lemma KeyFrame(fs: Fs, gone: set<Path>, s: Settings, env: Env, p: Path)
    requires NormalizePath(p, s, env) !in gone
    requires (s.keepStrategy.Oldest? || s.keepStrategy.Newest?) && NormalizePath(p, s, env) in fs ==>
      !fs[NormalizePath(p, s, env)].kind.Symlink?
    ensures StrategyKey(fs - gone, s, env, s.keepStrategy, p) == StrategyKey(fs, s, env, s.keepStrategy, p)
  {
    var np := NormalizePath(p, s, env);
    if s.keepStrategy.Oldest? || s.keepStrategy.Newest? {
      if np in fs {
        assert Resolve(fs, np) == Some(np) && Resolve(fs - gone, np) == Some(np);
      }
    }
  }

  /** The keep choice depends on the paths' keys only. */
  lemma SelectSameKeys(f: Fs, g: Fs, s: Settings, env: Env, fileList: seq<Path>)
    requires forall p :: p in fileList ==> StrategyKey(f, s, env, s.keepStrategy, p) == StrategyKey(g, s, env, s.keepStrategy, p)
    ensures SelectFileToKeep(f, s, env, fileList, s.keepStrategy) == SelectFileToKeep(g, s, env, fileList, s.keepStrategy)
  {
    var st := s.keepStrategy;
    assert Decorate(f, s, env, st, fileList) == Decorate(g, s, env, st, fileList) by {
      forall i | 0 <= i < |fileList| ensures Decorate(f, s, env, st, fileList)[i] == Decorate(g, s, env, st, fileList)[i] {
        assert fileList[i] in fileList;
      }
    }
    assert AllKeyed(f, s, env, st, fileList) == AllKeyed(g, s, env, st, fileList);
  }

  /** One path of a real delete run: removed and counted with its size exactly when it is removable. */
  lemma ActOnDeleteExact(fs: Fs, s: Settings, env: Env, keepNorm: Path, file: Path, stamp: nat)
    requires !s.dryRun && s.actionMode.Delete?
    ensures var np := NormalizePath(file, s, env);
      ActOn(fs, s, env, keepNorm, file, stamp) == if Removable(fs, np) then (fs - {np}, Some(fs[np].size)) else (fs, None)
  {
  }

  /** Recording the removal of a path the earlier removals did not touch. */
  lemma RecordRemoval(g: Fs, gone: seq<Path>, np: Path, act: (Fs, Option<nat>))
    requires np !in Elements(gone)
    requires var cur := g - Elements(gone);
      act == if Removable(cur, np) then (cur - {np}, Some(cur[np].size)) else (cur, None)
    ensures var more := gone + (if Removable(g, np) then [np] else []);
      Record(Tally(g - Elements(gone), |gone|, SizeOf(g, gone)), act) == Tally(g - Elements(more), |more|, SizeOf(g, more))
  {
    var cur := g - Elements(gone);
    assert np in cur <==> np in g;
    assert np in g ==> cur[np] == g[np];
    assert Removable(cur, np) == Removable(g, np);
    if Removable(g, np) {
      assert (gone + [np])[..|gone|] == gone;
      assert Elements(gone + [np]) == Elements(gone) + {np};
      assert cur - {np} == g - (Elements(gone) + {np});
    } else {
      assert gone + [] == gone;
    }
  }

  /**
   * A delete over distinct paths removes, from the filesystem it starts
   * on, exactly the normalized paths that are removable there, each
   * counted with its size.
   */
  lemma {:induction false} DeleteFilesExact(g: Fs, s: Settings, env: Env, keepNorm: Path, files: seq<Path>, stamp: nat)
    requires !s.dryRun && s.actionMode.Delete?
    requires DistinctPaths(s, env, files)
    ensures var gone := RemovableOf(g, s, env, files);
      ProcessFiles(g, s, env, keepNorm, files, stamp) == Tally(g - Elements(gone), |gone|, SizeOf(g, gone))
  {
    if |files| > 0 {
      var n := |files| - 1;
      var init, last := files[..n], files[n];
      DistinctPrefix(s, env, files, n);
      DeleteFilesExact(g, s, env, keepNorm, init, stamp);
      var gone := RemovableOf(g, s, env, init);
      var np := NormalizePath(last, s, env);
      RemovableWithin(g, s, env, init);
      LastFreshNorm(s, env, files);
      assert np !in Elements(gone);
      ActOnDeleteExact(g - Elements(gone), s, env, keepNorm, last, stamp);
      RecordRemoval(g, gone, np, ActOn(g - Elements(gone), s, env, keepNorm, last, stamp));
    }
  }

  /**
   * The sets' run: it removes exactly the `DeletedOf` paths, counting each
   * with its size, and no set's kept path is among them.
   */
  lemma {:induction false} DeleteSetsExact(fs: Fs, s: Settings, env: Env, sets: Dict<Digest, seq<Path>>, stamp: nat)
    requires !s.dryRun && s.actionMode.Delete?
    requires DistinctPaths(s, env, Flatten(sets)) && SelectionStable(fs, s, env, Flatten(sets))
    ensures var gone := DeletedOf(fs, s, env, sets);
      ProcessSets(fs, s, env, sets, stamp) == Tally(fs - Elements(gone), |gone|, SizeOf(fs, gone))
    ensures Elements(DeletedOf(fs, s, env, sets)) <= NormSet(s, env, Flatten(sets))
    ensures forall e :: e in sets && |e.1| >= 2 ==>
      NormalizePath(SelectFileToKeep(fs, s, env, e.1, s.keepStrategy).0, s, env) !in Elements(DeletedOf(fs, s, env, sets))
  {
    if |sets| > 0 {
      var n := |sets| - 1;
      var init, fileList := sets[..n], sets[n].1;
      assert Flatten(sets) == Flatten(init) + fileList;
      DistinctConcat(s, env, Flatten(init), fileList);
      assert forall x :: x in Flatten(init) ==> x in Flatten(sets);
      assert forall x :: x in fileList ==> x in Flatten(sets);
      DeleteSetsExact(fs, s, env, init, stamp);
      assert sets == init + [sets[n]];
      if |fileList| >= 2 {
        DeleteLastSet(fs, s, env, init, sets[n], stamp);
      } else {
        var goneI := DeletedOf(fs, s, env, init);
        assert goneI + [] == goneI;
        forall e | e in sets && |e.1| >= 2
          ensures NormalizePath(SelectFileToKeep(fs, s, env, e.1, s.keepStrategy).0, s, env) !in Elements(goneI)
        {
          assert e in init;
        }
      }
    }
  }

  /** The step of `DeleteSetsExact` for a last set of two or more paths. */
  lemma DeleteLastSet(fs: Fs, s: Settings, env: Env, init: Dict<Digest, seq<Path>>, last: (Digest, seq<Path>), stamp: nat)
    requires !s.dryRun && s.actionMode.Delete? && |last.1| >= 2
    requires DistinctPaths(s, env, last.1) && SelectionStable(fs, s, env, last.1)
    requires forall x, y :: x in Flatten(init) && y in last.1 ==> NormalizePath(x, s, env) != NormalizePath(y, s, env)
    requires var goneI := DeletedOf(fs, s, env, init);
      ProcessSets(fs, s, env, init, stamp) == Tally(fs - Elements(goneI), |goneI|, SizeOf(fs, goneI)) &&
      Elements(goneI) <= NormSet(s, env, Flatten(init)) &&
      forall e :: e in init && |e.1| >= 2 ==>
        NormalizePath(SelectFileToKeep(fs, s, env, e.1, s.keepStrategy).0, s, env) !in Elements(goneI)
    ensures var gone := DeletedOf(fs, s, env, init + [last]);
      ProcessSets(fs, s, env, init + [last], stamp) == Tally(fs - Elements(gone), |gone|, SizeOf(fs, gone))
    ensures Elements(DeletedOf(fs, s, env, init + [last])) <= NormSet(s, env, Flatten(init) + last.1)
    ensures forall e :: e in init + [last] && |e.1| >= 2 ==>
      NormalizePath(SelectFileToKeep(fs, s, env, e.1, s.keepStrategy).0, s, env) !in Elements(DeletedOf(fs, s, env, init + [last]))
  {
    var removed := Elements(DeletedOf(fs, s, env, init));
    OutsideEarlier(s, env, Flatten(init), last.1, removed);
    LastSetCounted(fs, s, env, init, last, stamp);
    LastSetWithin(fs, s, env, init, last);
    LastSetKept(fs, s, env, init, last);
  }

  /** What the sets up to the last remove lies among their normalized paths. */
  lemma LastSetWithin(fs: Fs, s: Settings, env: Env, init: Dict<Digest, seq<Path>>, last: (Digest, seq<Path>))
    requires |last.1| >= 2
    requires Elements(DeletedOf(fs, s, env, init)) <= NormSet(s, env, Flatten(init))
    ensures Elements(DeletedOf(fs, s, env, init + [last])) <= NormSet(s, env, Flatten(init) + last.1)
  {
    var sets := init + [last];
    assert sets[..|sets| - 1] == init && sets[|sets| - 1] == last;
    var goneI := DeletedOf(fs, s, env, init);
    var process := ProcessList(fs, s, env, last.1);
    var goneP := RemovableOf(fs, s, env, process);
    assert DeletedOf(fs, s, env, sets) == goneI + goneP;
    assert Elements(goneI + goneP) == Elements(goneI) + Elements(goneP);
    RemovableWithin(fs, s, env, process);
    forall x | x in process ensures x in Flatten(init) + last.1 {
      ProcessSubset(fs, s, env, last.1, x);
    }
    assert forall x :: x in Flatten(init) ==> x in Flatten(init) + last.1;
  }

  /** The kept paths of the sets up to the last are not among what those sets remove. */
  lemma LastSetKept(fs: Fs, s: Settings, env: Env, init: Dict<Digest, seq<Path>>, last: (Digest, seq<Path>))
    requires |last.1| >= 2 && DistinctPaths(s, env, last.1)
    requires forall x, y :: x in Flatten(init) && y in last.1 ==> NormalizePath(x, s, env) != NormalizePath(y, s, env)
    requires forall p :: p in last.1 ==> NormalizePath(p, s, env) !in Elements(DeletedOf(fs, s, env, init))
    requires forall e :: e in init && |e.1| >= 2 ==>
      NormalizePath(SelectFileToKeep(fs, s, env, e.1, s.keepStrategy).0, s, env) !in Elements(DeletedOf(fs, s, env, init))
    ensures forall e :: e in init + [last] && |e.1| >= 2 ==>
      NormalizePath(SelectFileToKeep(fs, s, env, e.1, s.keepStrategy).0, s, env) !in Elements(DeletedOf(fs, s, env, init + [last]))
  {
    var sets := init + [last];
    assert sets[..|sets| - 1] == init && sets[|sets| - 1] == last;
    var goneI := DeletedOf(fs, s, env, init);
    var process := ProcessList(fs, s, env, last.1);
    var goneP := RemovableOf(fs, s, env, process);
    assert DeletedOf(fs, s, env, sets) == goneI + goneP;
    assert Elements(goneI + goneP) == Elements(goneI) + Elements(goneP);
    RemovableWithin(fs, s, env, process);
    KeptNotDeleted(fs, s, env, init, last, process, goneP, Elements(goneI));
  }

  /** The counters and filesystem after the last set, in terms of what the earlier sets removed. */
  lemma LastSetCounted(fs: Fs, s: Settings, env: Env, init: Dict<Digest, seq<Path>>, last: (Digest, seq<Path>), stamp: nat)
    requires !s.dryRun && s.actionMode.Delete? && |last.1| >= 2
    requires DistinctPaths(s, env, last.1) && SelectionStable(fs, s, env, last.1)
    requires forall p :: p in last.1 ==> NormalizePath(p, s, env) !in Elements(DeletedOf(fs, s, env, init))
    requires var goneI := DeletedOf(fs, s, env, init);
      ProcessSets(fs, s, env, init, stamp) == Tally(fs - Elements(goneI), |goneI|, SizeOf(fs, goneI))
    ensures var gone := DeletedOf(fs, s, env, init + [last]);
      ProcessSets(fs, s, env, init + [last], stamp) == Tally(fs - Elements(gone), |gone|, SizeOf(fs, gone))
  {
    var sets := init + [last];
    assert sets[..|sets| - 1] == init && sets[|sets| - 1] == last;
    assert DeletedOf(fs, s, env, sets) == DeletedOf(fs, s, env, init) + RemovableOf(fs, s, env, ProcessList(fs, s, env, last.1));
    var fileList := last.1;
    var goneI := DeletedOf(fs, s, env, init);
    var removed := Elements(goneI);
    var before := ProcessSets(fs, s, env, init, stamp);
    var keep := SelectFileToKeep(fs, s, env, fileList, s.keepStrategy).0;
    var process := SelectFileToKeep(fs, s, env, fileList, s.keepStrategy).1;
    SelectionUnmoved(fs, removed, s, env, fileList);
    ProcessDistinct(fs, s, env, fileList, removed);
    LastSetTally(fs, s, env, goneI, NormalizePath(keep, s, env), process, stamp);
    assert ProcessSets(fs, s, env, sets, stamp) == ProcessSet(before, s, env, fileList, stamp);
  }

  /** Paths that normalize unlike every earlier path are outside what the earlier sets removed. */
  lemma OutsideEarlier(s: Settings, env: Env, earlier: seq<Path>, fileList: seq<Path>, removed: set<Path>)
    requires removed <= NormSet(s, env, earlier)
    requires forall x, y :: x in earlier && y in fileList ==> NormalizePath(x, s, env) != NormalizePath(y, s, env)
    ensures forall p :: p in fileList ==> NormalizePath(p, s, env) !in removed
  {
    forall p | p in fileList ensures NormalizePath(p, s, env) !in removed {
      assert forall x :: x in earlier ==> NormalizePath(x, s, env) != NormalizePath(p, s, env);
      assert NormalizePath(p, s, env) !in NormSet(s, env, earlier);
    }
  }

  /** Removing entries outside a stable set leaves its keep choice as it was. */
  lemma SelectionUnmoved(fs: Fs, removed: set<Path>, s: Settings, env: Env, fileList: seq<Path>)
    requires forall p :: p in fileList ==> NormalizePath(p, s, env) !in removed
    requires SelectionStable(fs, s, env, fileList)
    ensures SelectFileToKeep(fs - removed, s, env, fileList, s.keepStrategy) == SelectFileToKeep(fs, s, env, fileList, s.keepStrategy)
  {
    forall p | p in fileList
      ensures StrategyKey(fs - removed, s, env, s.keepStrategy, p) == StrategyKey(fs, s, env, s.keepStrategy, p)
    {
      KeyFrame(fs, removed, s, env, p);
    }
    SelectSameKeys(fs - removed, fs, s, env, fileList);
  }

  /** The paths left to process of a distinct set are distinct, and outside what a disjoint earlier run removed. */
  lemma ProcessDistinct(fs: Fs, s: Settings, env: Env, fileList: seq<Path>, removed: set<Path>)
    requires |fileList| > 0 && DistinctPaths(s, env, fileList)
    requires forall p :: p in fileList ==> NormalizePath(p, s, env) !in removed
    ensures var process := SelectFileToKeep(fs, s, env, fileList, s.keepStrategy).1;
      DistinctPaths(s, env, process) && forall x :: x in process ==> NormalizePath(x, s, env) !in removed
  {
    var (keep, process) := SelectFileToKeep(fs, s, env, fileList, s.keepStrategy);
    KeepPartition(fs, s, env, fileList, s.keepStrategy);
    assert multiset(process) <= multiset([keep] + process);
    DistinctSub(s, env, process, fileList);
    forall x | x in process ensures NormalizePath(x, s, env) !in removed {
      ProcessSubset(fs, s, env, fileList, x);
    }
  }

  /** Deleting `process` after `goneI` is gone is deleting `goneI + goneP` from the start. */
  lemma LastSetTally(fs: Fs, s: Settings, env: Env, goneI: seq<Path>, keepNorm: Path, process: seq<Path>, stamp: nat)
    requires !s.dryRun && s.actionMode.Delete?
    requires DistinctPaths(s, env, process) && forall x :: x in process ==> NormalizePath(x, s, env) !in Elements(goneI)
    ensures var goneP := RemovableOf(fs, s, env, process);
      var r := ProcessFiles(fs - Elements(goneI), s, env, keepNorm, process, stamp);
      Tally(r.fs, |goneI| + r.count, SizeOf(fs, goneI) + r.saved)
        == Tally(fs - Elements(goneI + goneP), |goneI + goneP|, SizeOf(fs, goneI + goneP))
  {
    var removed := Elements(goneI);
    RemovableFrame(fs, removed, s, env, process);
    DeleteFilesExact(fs - removed, s, env, keepNorm, process, stamp);
    var goneP := RemovableOf(fs, s, env, process);
    RemovableWithin(fs, s, env, process);
    forall q | q in goneP ensures q !in removed {
      assert q in Elements(goneP);
    }
    SizeOfFrame(fs, removed, goneP);
    SizeOfConcat(fs, goneI, goneP);
    assert Elements(goneI + goneP) == removed + Elements(goneP);
    assert (fs - removed) - Elements(goneP) == fs - (removed + Elements(goneP));
  }

  /** No set's kept path is deleted: within its set by distinctness, across sets by disjointness. */
  lemma KeptNotDeleted(fs: Fs, s: Settings, env: Env, init: Dict<Digest, seq<Path>>, last: (Digest, seq<Path>),
                       process: seq<Path>, goneP: seq<Path>, removed: set<Path>)
    requires |last.1| >= 2 && DistinctPaths(s, env, last.1)
    requires forall x, y :: x in Flatten(init) && y in last.1 ==> NormalizePath(x, s, env) != NormalizePath(y, s, env)
    requires forall p :: p in last.1 ==> NormalizePath(p, s, env) !in removed
    requires process == SelectFileToKeep(fs, s, env, last.1, s.keepStrategy).1
    requires Elements(goneP) <= NormSet(s, env, process)
    requires forall e :: e in init && |e.1| >= 2 ==>
      NormalizePath(SelectFileToKeep(fs, s, env, e.1, s.keepStrategy).0, s, env) !in removed
    ensures forall e :: e in init + [last] && |e.1| >= 2 ==>
      NormalizePath(SelectFileToKeep(fs, s, env, e.1, s.keepStrategy).0, s, env) !in removed + Elements(goneP)
  {
    forall x | x in process ensures x in last.1 {
      ProcessSubset(fs, s, env, last.1, x);
    }
    forall e | e in init + [last] && |e.1| >= 2
      ensures NormalizePath(SelectFileToKeep(fs, s, env, e.1, s.keepStrategy).0, s, env) !in removed + Elements(goneP)
    {
      if e == last {
        KeepMember(fs, s, env, last.1);
        KeptOfLast(fs, s, env, last.1, process, goneP);
      } else {
        assert e in init;
        KeptOfEarlier(fs, s, env, init, e, last.1, process, goneP, removed);
      }
    }
  }

  /** A set's kept path is one of its paths. */
  lemma KeepMember(fs: Fs, s: Settings, env: Env, fileList: seq<Path>)
    requires |fileList| > 0
    ensures SelectFileToKeep(fs, s, env, fileList, s.keepStrategy).0 in fileList
  {
    var (keep, process) := SelectFileToKeep(fs, s, env, fileList, s.keepStrategy);
    KeepPartition(fs, s, env, fileList, s.keepStrategy);
    assert keep in multiset([keep] + process);
  }

  /** The last set's kept path normalizes unlike every path it processes. */
  lemma KeptOfLast(fs: Fs, s: Settings, env: Env, fileList: seq<Path>, process: seq<Path>, goneP: seq<Path>)
    requires |fileList| > 0 && DistinctPaths(s, env, fileList)
    requires process == SelectFileToKeep(fs, s, env, fileList, s.keepStrategy).1
    requires forall x :: x in process ==> x in fileList
    requires Elements(goneP) <= NormSet(s, env, process)
    ensures NormalizePath(SelectFileToKeep(fs, s, env, fileList, s.keepStrategy).0, s, env) !in Elements(goneP)
  {
    var keep := SelectFileToKeep(fs, s, env, fileList, s.keepStrategy).0;
    KeepNotProcessed(fs, s, env, fileList, s.keepStrategy);
    forall x | x in process ensures NormalizePath(x, s, env) != NormalizePath(keep, s, env) {
      assert x != keep;
    }
    assert NormalizePath(keep, s, env) !in NormSet(s, env, process);
  }

  /** An earlier set's kept path survived the earlier sets, and normalizes unlike every path of the last set. */
  lemma KeptOfEarlier(fs: Fs, s: Settings, env: Env, init: Dict<Digest, seq<Path>>, e: (Digest, seq<Path>),
                      fileList: seq<Path>, process: seq<Path>, goneP: seq<Path>, removed: set<Path>)
    requires e in init && |e.1| >= 2
    requires NormalizePath(SelectFileToKeep(fs, s, env, e.1, s.keepStrategy).0, s, env) !in removed
    requires forall x, y :: x in Flatten(init) && y in fileList ==> NormalizePath(x, s, env) != NormalizePath(y, s, env)
    requires forall x :: x in process ==> x in fileList
    requires Elements(goneP) <= NormSet(s, env, process)
    ensures NormalizePath(SelectFileToKeep(fs, s, env, e.1, s.keepStrategy).0, s, env) !in removed + Elements(goneP)
  {
    var k := SelectFileToKeep(fs, s, env, e.1, s.keepStrategy).0;
    KeepMember(fs, s, env, e.1);
    FlattenMembers(init);
    assert k in Flatten(init);
    assert forall x :: x in process ==> NormalizePath(x, s, env) != NormalizePath(k, s, env);
    assert NormalizePath(k, s, env) !in NormSet(s, env, process);
  }

  /**
   * A real delete run over sets whose paths differ pairwise, also once
   * normalized, removes exactly the `DeletedOf` entries (the paths left to
   * process whose `lstat` and `os.remove` succeed), counts each of them
   * with its size, changes no other entry, and leaves every set's kept
   * path as it was.
   */
  lemma DeleteRunExact(fs: Fs, s: Settings, env: Env, duplicates: Dict<Digest, seq<Path>>, stamp: nat)
    requires !s.dryRun && s.actionMode.Delete?
    requires DistinctPaths(s, env, Flatten(duplicates)) && SelectionStable(fs, s, env, Flatten(duplicates))
    ensures var gone := DeletedOf(fs, s, env, duplicates);
      Performed(fs, s, env, duplicates, stamp) == (fs - Elements(gone), Done(|gone|, SizeOf(fs, gone)))
    ensures forall e :: e in duplicates && |e.1| >= 2 ==>
      KeptIntact(fs, Performed(fs, s, env, duplicates, stamp).0, s, env, e.1)
  {
    var gone := DeletedOf(fs, s, env, duplicates);
    if |duplicates| > 0 {
      assert Prepared(fs, s) == Some(fs);
      DeleteSetsExact(fs, s, env, duplicates, stamp);
      var after := fs - Elements(gone);
      assert Performed(fs, s, env, duplicates, stamp).0 == after;
      forall e | e in duplicates && |e.1| >= 2 ensures KeptIntact(fs, after, s, env, e.1) {
        var kn := NormalizePath(SelectFileToKeep(fs, s, env, e.1, s.keepStrategy).0, s, env);
        assert kn !in Elements(gone);
      }
    } else {
      assert Elements(gone) == {};
      assert fs - Elements(gone) == fs;
    }
  }

  // what is left alone

  // ----- the stamped quarantine name, as written and corrected -----

  /**
   * As written, the stamped name is not checked before the move: when
   * `q/basename` exists and `q/base_<ts>ext` is a regular file, the move
   * succeeds onto it and that file's entry is replaced by the quarantined one.
   */
  lemma QuarantineReplaces(fs: Fs, s: Settings, env: Env, keepNorm: Path, file: Path, stamp: nat)
    requires !s.dryRun && s.actionMode.Quarantine? && s.quarantinePath.Some?
    requires var q, np := s.quarantinePath.value, NormalizePath(file, s, env);
      var stamped := Join(q, StampedName(Basename(file), stamp));
      Exists(fs, Join(q, Basename(file))) && stamped in fs && fs[stamped].kind == Regular &&
      Lstat(fs, np).Stat? && MoveFile(fs, np, stamped).Some?
    ensures var stamped := Join(s.quarantinePath.value, StampedName(Basename(file), stamp));
      var (f, counted) := ActOn(fs, s, env, keepNorm, file, stamp);
      counted.Some? && stamped in f && f[stamped] == fs[NormalizePath(file, s, env)]
  {
    var q, np := s.quarantinePath.value, NormalizePath(file, s, env);
    var stamped := Join(q, StampedName(Basename(file), stamp));
    assert QuarantineDest(fs, q, file, stamp) == stamped;
    assert !IsDir(fs, stamped);
    QuarantineExact(fs, s, env, keepNorm, file, stamp);
  }

  /** The settings of a real quarantine run into `q`. */
  function ClashSettings(): Settings
  {
    Settings("", 1, false, false, false, false, Quarantine, KeepFirst, Some("q"), 2)
  }

  /** `a` and the quarantine directory `q`, which holds regular files at `plain` and `stamped`. */
  function ClashFs(plain: Path, stamped: Path): Fs
  {
    map["a" := Entry(Regular, 1, [1], None, 0, true, true, false), "q" := NewDirectory,
        plain := Entry(Regular, 1, [2], None, 0, true, true, false),
        stamped := Entry(Regular, 1, [3], None, 0, true, true, false)]
  }

  /** The two names quarantining `a` into `q` can try at stamp 5 differ from each other and from `a` and `q`. */
  lemma ClashNames()
    ensures var name := Basename("a");
      var plain, stamped := Join("q", name), Join("q", StampedName(name, 5));
      |plain| >= 2 && |stamped| > |plain| && Dirname(stamped) == "q"
  {
    var name := Basename("a");
    StampedLonger("q", name, 5);
    StampedDiffers("q", name, 5);
    JoinRelative("q", name) by {
      if |name| > 0 { assert name[0] in name; }
    }
    DirnameJoin("q", StampedName(name, 5));
  }

  /**
   * With any two names of those lengths, the second inside `q`, the
   * quarantine of `a` into `q` meets every hypothesis of `QuarantineReplaces`.
   */
  lemma ClashMoves(env: Env, plain: Path, stamped: Path)
    requires |plain| >= 2 && |stamped| > |plain| && Dirname(stamped) == "q"
    ensures var s, fs := ClashSettings(), ClashFs(plain, stamped);
      var np := NormalizePath("a", s, env);
      !s.dryRun && s.actionMode.Quarantine? && s.quarantinePath == Some("q") && np == "a" &&
      Exists(fs, plain) && stamped in fs && fs[stamped].kind == Regular &&
      Lstat(fs, np).Stat? && MoveFile(fs, np, stamped).Some? && fs[stamped] != fs[np]
  {
    assert |"a"| == 1 && |"q"| == 1;
    assert "a" != plain && "a" != stamped && "q" != plain && "q" != stamped && plain != stamped;
    var fs := ClashFs(plain, stamped);
    assert fs["a"] == Entry(Regular, 1, [1], None, 0, true, true, false) && fs["q"] == NewDirectory;
    assert fs[plain] == Entry(Regular, 1, [2], None, 0, true, true, false);
    assert fs[stamped] == Entry(Regular, 1, [3], None, 0, true, true, false);
    assert Exists(fs, plain);
    assert !IsDir(fs, stamped) && IsDir(fs, "q");
  }

  /**
   * An instance: `a` is quarantined into the directory `q` at stamp 5,
   * where `q/a` and the stamped `q/a_5` are regular files already with
   * other contents.  Every hypothesis of `QuarantineReplaces` holds, so
   * the path is counted and the earlier `q/a_5` is overwritten.
   */
  lemma QuarantineReplacesExample(env: Env)
    ensures var plain, stamped := Join("q", Basename("a")), Join("q", StampedName(Basename("a"), 5));
      var s, fs := ClashSettings(), ClashFs(plain, stamped);
      var np := NormalizePath("a", s, env);
      !s.dryRun && s.actionMode.Quarantine? && s.quarantinePath == Some("q") && np == "a" &&
      Exists(fs, plain) && stamped in fs && fs[stamped].kind == Regular &&
      Lstat(fs, np).Stat? && MoveFile(fs, np, stamped).Some? && fs[stamped] != fs[np]
  {
    var plain, stamped := Join("q", Basename("a")), Join("q", StampedName(Basename("a"), 5));
    ClashNames();
    ClashMoves(env, plain, stamped);
  }

  /**
   * The destination the conflict handling evidently means: `q/basename`
   * when nothing is there, else `q/base_<ts>ext` when nothing is there,
   * else none, so that a move never lands on an existing entry.
   */
  function SafeQuarantineDest(fs: Fs, q: Path, file: Path, stamp: nat): (r: Option<Path>)
    ensures r.Some? ==> r.value !in fs && StartsWith(r.value, JoinPrefix(q))
  {
    var plain := Join(q, Basename(file));
    var stamped := Join(q, StampedName(Basename(file), stamp));
    DestInQuarantine(map[], q, file, stamp);
    DestInQuarantine(map[plain := NewDirectory], q, file, stamp);
    if plain !in fs then Some(plain)
    else if stamped !in fs then Some(stamped)
    else None
  }

  /** Where the written destination is free, the corrected one is the same path. */
  lemma SafeDestAgrees(fs: Fs, q: Path, file: Path, stamp: nat)
    requires QuarantineDest(fs, q, file, stamp) !in fs
    ensures SafeQuarantineDest(fs, q, file, stamp) == Some(QuarantineDest(fs, q, file, stamp))
  {
  }

  /** A move onto the corrected destination replaces nothing: every other entry keeps its place and content. */
  lemma SafeMoveReplacesNothing(fs: Fs, np: Path, q: Path, file: Path, stamp: nat)
    requires SafeQuarantineDest(fs, q, file, stamp).Some?
    requires MoveFile(fs, np, SafeQuarantineDest(fs, q, file, stamp).value).Some?
    ensures var dest := SafeQuarantineDest(fs, q, file, stamp).value;
      var f := MoveFile(fs, np, dest).value;
      dest in f && f[dest] == fs[np] && forall k :: k in fs && k != np ==> k in f && f[k] == fs[k]
  {
    var dest := SafeQuarantineDest(fs, q, file, stamp).value;
    assert MoveTarget(fs, np, dest) == dest;
  }

  /** The quarantine destination lies in the quarantine directory. */
  lemma DestInQuarantine(fs: Fs, q: Path, file: Path, stamp: nat)
    ensures StartsWith(QuarantineDest(fs, q, file, stamp), JoinPrefix(q))
  {
    var name := Basename(file);
    var b := if Exists(fs, Join(q, name)) then StampedName(name, stamp) else name;
    StampedDiffers(q, name, stamp);
    assert '/' !in b;
    assert |b| == 0 || b[0] != '/' by {
      if |b| > 0 { assert b[0] in b; }
    }
    JoinRelative(q, b);
    assert QuarantineDest(fs, q, file, stamp) == JoinPrefix(q) + b;
    assert (JoinPrefix(q) + b)[..|JoinPrefix(q)|] == JoinPrefix(q);
  }

  /** Where the move of `file` ends: the destination, or inside it when that is a directory. */
  lemma TargetInQuarantine(fs: Fs, q: Path, file: Path, np: Path, stamp: nat)
    ensures StartsWith(MoveTarget(fs, np, QuarantineDest(fs, q, file, stamp)), JoinPrefix(q))
  {
    var dest := QuarantineDest(fs, q, file, stamp);
    DestInQuarantine(fs, q, file, stamp);
    if MoveTarget(fs, np, dest) != dest {
      var b := Basename(TrimSlashes(np));
      assert |b| == 0 || b[0] != '/' by {
        if |b| > 0 { assert b[0] in b; }
      }
      JoinRelative(dest, b);
      assert StartsWith(Join(dest, b), dest);
      StartsWithTrans(Join(dest, b), dest, JoinPrefix(q));
    }
  }

  /**
   * Whether `p` is outside what a real quarantine run may add: the
   * quarantine directory, the ancestors `makedirs` may create (prefixes of
   * its path) and everything inside it (always, in other runs).
   */
  predicate OutsideQuarantine(s: Settings, p: Path)
  {
    !s.dryRun && s.actionMode.Quarantine? && s.quarantinePath.Some? ==>
      !StartsWith(s.quarantinePath.value, p) && !StartsWith(p, JoinPrefix(s.quarantinePath.value))
  }

  lemma ActOnUntouched(fs: Fs, s: Settings, env: Env, keepNorm: Path, file: Path, stamp: nat, p: Path)
    requires NormalizePath(file, s, env) != p && OutsideQuarantine(s, p)
    ensures var f := ActOn(fs, s, env, keepNorm, file, stamp).0;
      (p in f <==> p in fs) && (p in fs ==> f[p] == fs[p])
  {
    if !s.dryRun {
      match s.actionMode {
        case Delete => ActOnDelete(fs, s, env, keepNorm, file, stamp);
        case Quarantine => QuarantineUntouched(fs, s, env, keepNorm, file, stamp, p);
        case Link => LinkUntouched(fs, s, env, keepNorm, file, stamp, p);
        case _ =>
      }
    }
  }

  lemma QuarantineUntouched(fs: Fs, s: Settings, env: Env, keepNorm: Path, file: Path, stamp: nat, p: Path)
    requires !s.dryRun && s.actionMode.Quarantine?
    requires NormalizePath(file, s, env) != p && OutsideQuarantine(s, p)
    ensures var f := ActOn(fs, s, env, keepNorm, file, stamp).0;
      (p in f <==> p in fs) && (p in fs ==> f[p] == fs[p])
  {
    var np := NormalizePath(file, s, env);
    var f := ActOn(fs, s, env, keepNorm, file, stamp).0;
    if s.quarantinePath.Some? {
      var dest := QuarantineDest(fs, s.quarantinePath.value, file, stamp);
      TargetInQuarantine(fs, s.quarantinePath.value, file, np, stamp);
      assert MoveTarget(fs, np, dest) != p;
      assert f == fs || f == (fs - {np})[MoveTarget(fs, np, dest) := fs[np]];
    }
  }

  lemma LinkUntouched(fs: Fs, s: Settings, env: Env, keepNorm: Path, file: Path, stamp: nat, p: Path)
    requires !s.dryRun && s.actionMode.Link?
    requires NormalizePath(file, s, env) != p
    ensures var f := ActOn(fs, s, env, keepNorm, file, stamp).0;
      (p in f <==> p in fs) && (p in fs ==> f[p] == fs[p])
  {
    var np := NormalizePath(file, s, env);
    var f := ActOn(fs, s, env, keepNorm, file, stamp).0;
    var rest := fs - {np};
    if Lstat(fs, np).Stat? && RemoveFile(fs, np).Some? {
      assert f == rest || (np !in rest && f == rest[np := f[np]]);
    }
  }

  lemma {:induction false} FilesUntouched(fs: Fs, s: Settings, env: Env, keepNorm: Path, files: seq<Path>, stamp: nat, p: Path)
    requires forall x :: x in files ==> NormalizePath(x, s, env) != p
    requires OutsideQuarantine(s, p)
    ensures var f := ProcessFiles(fs, s, env, keepNorm, files, stamp).fs;
      (p in f <==> p in fs) && (p in fs ==> f[p] == fs[p])
  {
    if |files| > 0 {
      var before := ProcessFiles(fs, s, env, keepNorm, files[..|files| - 1], stamp);
      FilesUntouched(fs, s, env, keepNorm, files[..|files| - 1], stamp, p);
      assert files[|files| - 1] in files;
      ActOnUntouched(before.fs, s, env, keepNorm, files[|files| - 1], stamp, p);
    }
  }

  lemma {:induction false} SetsUntouched(fs: Fs, s: Settings, env: Env, sets: Dict<Digest, seq<Path>>, stamp: nat, p: Path)
    requires forall e, x :: e in sets && x in e.1 ==> NormalizePath(x, s, env) != p
    requires OutsideQuarantine(s, p)
    ensures var f := ProcessSets(fs, s, env, sets, stamp).fs;
      (p in f <==> p in fs) && (p in fs ==> f[p] == fs[p])
  {
    if |sets| > 0 {
      var init := sets[..|sets| - 1];
      assert forall e :: e in init ==> e in sets;
      SetsUntouched(fs, s, env, init, stamp, p);
      var before := ProcessSets(fs, s, env, init, stamp);
      var fileList := sets[|sets| - 1].1;
      if |fileList| >= 2 {
        assert sets[|sets| - 1] in sets;
        var (keep, process) := SelectFileToKeep(before.fs, s, env, fileList, s.keepStrategy);
        forall x | x in process ensures NormalizePath(x, s, env) != p {
          ProcessSubset(before.fs, s, env, fileList, x);
        }
        FilesUntouched(before.fs, s, env, NormalizePath(keep, s, env), process, stamp, p);
      }
    }
  }

  /**
   * A path that is not the normalized form of any path in the sets, and is
   * neither the quarantine directory nor inside it, keeps its entry (or its
   * absence) in every mode.
   */
  lemma OthersUntouched(fs: Fs, s: Settings, env: Env, duplicates: Dict<Digest, seq<Path>>, stamp: nat, p: Path)
    requires forall e, x :: e in duplicates && x in e.1 ==> NormalizePath(x, s, env) != p
    requires OutsideQuarantine(s, p)
    ensures var f := Performed(fs, s, env, duplicates, stamp).0;
      (p in f <==> p in fs) && (p in fs ==> f[p] == fs[p])
  {
    if |duplicates| > 0 && !s.actionMode.NoAction? && Prepared(fs, s).Some? {
      SetsUntouched(Prepared(fs, s).value, s, env, duplicates, stamp, p);
    }
  }

  // single-path effects

  /**
   * Quarantine moves the path to its destination (into it, when that is a
   * directory) and counts its size; when `q/basename` already exists (and
   * is not the path itself) the stamped name is used, so that entry stays
   * as it was.
   */
  lemma QuarantineStep(fs: Fs, s: Settings, env: Env, keepNorm: Path, file: Path, stamp: nat)
    requires !s.dryRun && s.actionMode.Quarantine? && s.quarantinePath.Some?
    ensures var np := NormalizePath(file, s, env);
      var plain := Join(s.quarantinePath.value, Basename(file));
      var dest := QuarantineDest(fs, s.quarantinePath.value, file, stamp);
      var (f, counted) := ActOn(fs, s, env, keepNorm, file, stamp);
      (counted.Some? <==> Lstat(fs, np).Stat? && MoveFile(fs, np, dest).Some?) &&
      (counted.Some? ==> f == (fs - {np})[MoveTarget(fs, np, dest) := fs[np]] && counted == Some(fs[np].size)) &&
      (counted.None? ==> f == fs) &&
      (counted.Some? && Exists(fs, plain) && plain != np ==> plain in f && f[plain] == fs[plain])
  {
    var q := s.quarantinePath.value;
    var np := NormalizePath(file, s, env);
    var plain := Join(q, Basename(file));
    var dest := QuarantineDest(fs, q, file, stamp);
    QuarantineExact(fs, s, env, keepNorm, file, stamp);
    if Exists(fs, plain) && plain != np && Lstat(fs, np).Stat? && MoveFile(fs, np, dest).Some? {
      StampedLonger(q, Basename(file), stamp);
      StampedDiffers(q, Basename(file), stamp);
      MoveTargetLonger(fs, np, dest);
      var target := MoveTarget(fs, np, dest);
      assert target != plain;
      assert MoveFile(fs, np, dest).value == (fs - {np})[target := fs[np]];
    }
  }

  /** One path of a real quarantine run: counted with its size exactly when its `lstat` and the move succeed. */
  lemma QuarantineExact(fs: Fs, s: Settings, env: Env, keepNorm: Path, file: Path, stamp: nat)
    requires !s.dryRun && s.actionMode.Quarantine? && s.quarantinePath.Some?
    ensures var np := NormalizePath(file, s, env);
      var moved := MoveFile(fs, np, QuarantineDest(fs, s.quarantinePath.value, file, stamp));
      ActOn(fs, s, env, keepNorm, file, stamp)
        == if Lstat(fs, np).Stat? && moved.Some? then (moved.value, Some(fs[np].size)) else (fs, None)
  {
  }

  /** With the plain name taken, the stamped destination is longer than it. */
  lemma StampedLonger(q: Path, name: Path, stamp: nat)
    requires '/' !in name
    ensures |Join(q, StampedName(name, stamp))| > |Join(q, name)|
  {
    var sn := StampedName(name, stamp);
    StampedDiffers(q, name, stamp);
    assert |name| == 0 || name[0] != '/' by {
      if |name| > 0 { assert name[0] in name; }
    }
    assert |sn| > 0 && sn[0] != '/' by {
      assert sn[0] in sn;
    }
    JoinRelative(q, name);
    JoinRelative(q, sn);
  }

  /** A move into a directory lands below it, on a longer path. */
  lemma MoveTargetLonger(fs: Fs, src: Path, dst: Path)
    ensures MoveTarget(fs, src, dst) != dst ==> |MoveTarget(fs, src, dst)| >= |dst|
  {
    var b := Basename(TrimSlashes(src));
    assert |b| == 0 || b[0] != '/' by {
      if |b| > 0 { assert b[0] in b; }
    }
    JoinRelative(dst, b);
  }

  /**
   * Link mode, once the path is removed: when the link is made the path
   * names the kept file's entry, so it has the kept path's identity key;
   * when it fails the path stays removed and is not counted.
   */
  lemma LinkStep(fs: Fs, s: Settings, env: Env, keepNorm: Path, file: Path, stamp: nat)
    requires !s.dryRun && s.actionMode.Link?
    requires Lstat(fs, NormalizePath(file, s, env)).Stat?
    requires RemoveFile(fs, NormalizePath(file, s, env)).Some?
    ensures var np := NormalizePath(file, s, env);
      var rest := fs - {np};
      var (f, counted) := ActOn(fs, s, env, keepNorm, file, stamp);
      (counted.Some? <==> HardLink(rest, keepNorm, np, CanLink(env)).Some?) &&
      (counted.Some? ==> Resolve(rest, keepNorm).Some? && f == rest[np := rest[Resolve(rest, keepNorm).value]] &&
                         FileKeyOf(f, np) == FileKeyOf(rest, keepNorm)) &&
      (counted.None? ==> f == rest && np !in f)
  {
    var np := NormalizePath(file, s, env);
    var rest := fs - {np};
    var (f, counted) := ActOn(fs, s, env, keepNorm, file, stamp);
    if counted.Some? {
      var t := Resolve(rest, keepNorm).value;
      assert f[np] == rest[t];
      assert Resolve(f, np) == Some(np);
    }
  }
}
