/**
 * Size bucketing (`find_potential_duplicates_by_size`): the walked paths
 * that are files of at least the minimum size, grouped by their `lstat`
 * size, keeping only sizes shared by two or more paths.
 */
module Scan {
  import opened Wrappers
  import opened Paths
  import opened FileSystem
  import opened Configuration
  import opened Dicts

  /** What the scan makes of one walked path. */
  datatype Verdict = Vanished | Unreadable | NotAFile | TooSmall | Candidate(size: nat)

  /**
   * One iteration of the scan loop.  The size is the `lstat` size while the
   * file test follows links, so a link to a regular file is a candidate
   * with the size of the link itself.
   */
  function Classify(fs: Fs, cfg: Settings, env: Env, path: Path): Verdict
  {
    var norm := NormalizePath(path, cfg, env);
    match Lstat(fs, norm)
    case NotFound => Vanished
    case StatFailed => Unreadable
    case Stat(size) =>
      if !IsFile(fs, norm) then NotAFile
      else if size >= cfg.minSize then Candidate(size)
      else TooSmall
  }

  /** `(size, path)` for each walked path appended to `files_by_size`, in walk order. */
  function SizeItems(fs: Fs, cfg: Settings, env: Env, walk: seq<Path>): seq<(nat, Path)>
  {
    if |walk| == 0 then []
    else
      var last := walk[|walk| - 1];
      SizeItems(fs, cfg, env, walk[..|walk| - 1])
        + match Classify(fs, cfg, env, last) { case Candidate(s) => [(s, last)] case _ => [] }
  }

  /** The walked paths whose `lstat` raised something other than FileNotFoundError. */
  function UnreadableEntries(fs: Fs, cfg: Settings, env: Env, walk: seq<Path>): seq<Path>
  {
    if |walk| == 0 then []
    else
      var last := walk[|walk| - 1];
      UnreadableEntries(fs, cfg, env, walk[..|walk| - 1])
        + (if Lstat(fs, NormalizePath(last, cfg, env)) == StatFailed then [last] else [])
  }

  /** The walked paths accepted with size `s`, in walk order. */
  function CandidatesOfSize(fs: Fs, cfg: Settings, env: Env, walk: seq<Path>, s: nat): seq<Path>
  {
    if |walk| == 0 then []
    else
      var last := walk[|walk| - 1];
      CandidatesOfSize(fs, cfg, env, walk[..|walk| - 1], s)
        + (if Classify(fs, cfg, env, last) == Candidate(s) then [last] else [])
  }

  /** The dictionary the scan returns. */
  function PotentialDuplicates(fs: Fs, cfg: Settings, env: Env, walk: seq<Path>): Dict<nat, seq<Path>>
  {
    Multiples(Group(SizeItems(fs, cfg, env, walk)))
  }

  /** The buckets and the two counters the scan reports. */
  datatype ScanResult = ScanResult(buckets: Dict<nat, seq<Path>>, scanned: nat, skippedUnreadable: nat)

  /**
   * The scan over the paths `os.walk` yields (already joined to their
   * directory), in the order it yields them.
   */
  method FindPotentialDuplicatesBySize(fs: Fs, cfg: Settings, env: Env, walk: seq<Path>) returns (r: ScanResult)
    ensures r.buckets == PotentialDuplicates(fs, cfg, env, walk)
    ensures r.scanned == |SizeItems(fs, cfg, env, walk)|
    ensures r.skippedUnreadable == |UnreadableEntries(fs, cfg, env, walk)|
  {
    var filesBySize: Dict<nat, seq<Path>> := [];
    var count, skippedUnreadable := 0, 0;
    var i := 0;
    while i < |walk|
      invariant 0 <= i <= |walk|
      invariant filesBySize == Group(SizeItems(fs, cfg, env, walk[..i]))
      invariant count == |SizeItems(fs, cfg, env, walk[..i])|
      invariant skippedUnreadable == |UnreadableEntries(fs, cfg, env, walk[..i])|
    {
      var path := walk[i];
      var norm := NormalizePath(path, cfg, env);
      assert walk[..i + 1][..i] == walk[..i];
      assert SizeItems(fs, cfg, env, walk[..i + 1]) == SizeItems(fs, cfg, env, walk[..i])
        + match Classify(fs, cfg, env, path) { case Candidate(s) => [(s, path)] case _ => [] };
      if !Classify(fs, cfg, env, path).Candidate? {
        assert SizeItems(fs, cfg, env, walk[..i + 1]) == SizeItems(fs, cfg, env, walk[..i]);
      }
      match Lstat(fs, norm) {
        case NotFound =>
          // the file vanished between listing and stat: skipped silently
          assert Classify(fs, cfg, env, path) == Vanished;
        case StatFailed =>
          assert Classify(fs, cfg, env, path) == Unreadable;
          skippedUnreadable := skippedUnreadable + 1;
        case Stat(size) =>
          ghost var before := SizeItems(fs, cfg, env, walk[..i]);
          if IsFile(fs, norm) && size >= cfg.minSize {
            assert SizeItems(fs, cfg, env, walk[..i + 1]) == before + [(size, path)];
            GroupSnoc(before, size, path);
            filesBySize := Append(filesBySize, size, path);
            count := count + 1;
          } else {
            assert !Classify(fs, cfg, env, path).Candidate?;
          }
      }
      i := i + 1;
    }
    assert walk[..|walk|] == walk;
    r := ScanResult(Multiples(filesBySize), count, skippedUnreadable);
  }

  // ----- properties -----

  lemma {:induction false} SelectIsCandidates(fs: Fs, cfg: Settings, env: Env, walk: seq<Path>, s: nat)
    ensures Select(SizeItems(fs, cfg, env, walk), s) == CandidatesOfSize(fs, cfg, env, walk, s)
  {
    if |walk| > 0 {
      var init, last := walk[..|walk| - 1], walk[|walk| - 1];
      SelectIsCandidates(fs, cfg, env, init, s);
      var tail := match Classify(fs, cfg, env, last) { case Candidate(t) => [(t, last)] case _ => [] };
      var items := SizeItems(fs, cfg, env, walk);
      if tail == [] {
        assert items == SizeItems(fs, cfg, env, init);
      } else {
        assert items[..|items| - 1] == SizeItems(fs, cfg, env, init);
      }
    }
  }

  lemma {:induction false} SizeItemsSound(fs: Fs, cfg: Settings, env: Env, walk: seq<Path>)
    ensures forall it :: it in SizeItems(fs, cfg, env, walk) ==> it.1 in walk && Classify(fs, cfg, env, it.1) == Candidate(it.0)
  {
    if |walk| > 0 {
      var init := walk[..|walk| - 1];
      SizeItemsSound(fs, cfg, env, init);
      assert forall p :: p in init ==> p in walk;
    }
  }

  /**
   * The buckets, exactly: size `s` is a key iff at least two walked paths are
   * files of `lstat` size `s >= min_size`, and then its list is those paths
   * in walk order.
   */
  lemma BucketsBySize(fs: Fs, cfg: Settings, env: Env, walk: seq<Path>, s: nat)
    ensures Get(PotentialDuplicates(fs, cfg, env, walk), s)
         == var ps := CandidatesOfSize(fs, cfg, env, walk, s); if |ps| >= 2 then Some(ps) else None
  {
    var items := SizeItems(fs, cfg, env, walk);
    GroupDistinct(items);
    GroupGet(items, s);
    MultiplesGet(Group(items), s);
    SelectIsCandidates(fs, cfg, env, walk, s);
  }

  /**
   * Every bucket has at least two paths, and every path in bucket `s` was
   * walked, passed `isfile` and has `lstat` size `s >= min_size`.  A path
   * whose `lstat` failed (vanished or unreadable) is therefore in no bucket.
   */
  lemma BucketsAreCandidates(fs: Fs, cfg: Settings, env: Env, walk: seq<Path>)
    ensures forall e :: e in PotentialDuplicates(fs, cfg, env, walk) ==>
      |e.1| >= 2 &&
      forall p :: p in e.1 ==>
        var norm := NormalizePath(p, cfg, env);
        p in walk && IsFile(fs, norm) && Lstat(fs, norm) == Stat(e.0) && e.0 >= cfg.minSize
  {
    var items := SizeItems(fs, cfg, env, walk);
    MultiplesMembers(Group(items));
    forall e, p | e in PotentialDuplicates(fs, cfg, env, walk) && p in e.1
      ensures var norm := NormalizePath(p, cfg, env);
        p in walk && IsFile(fs, norm) && Lstat(fs, norm) == Stat(e.0) && e.0 >= cfg.minSize
    {
      BucketMember(fs, cfg, env, walk, e, p);
    }
  }

  /** One path of one bucket of `BucketsAreCandidates`. */
  lemma BucketMember(fs: Fs, cfg: Settings, env: Env, walk: seq<Path>, e: (nat, seq<Path>), p: Path)
    requires e in Group(SizeItems(fs, cfg, env, walk)) && p in e.1
    ensures var norm := NormalizePath(p, cfg, env);
      p in walk && IsFile(fs, norm) && Lstat(fs, norm) == Stat(e.0) && e.0 >= cfg.minSize
  {
    var items := SizeItems(fs, cfg, env, walk);
    GroupEntries(items);
    SizeItemsSound(fs, cfg, env, walk);
    SelectMembers(items, e.0);
    assert (e.0, p) in items;
    assert Classify(fs, cfg, env, p) == Candidate(e.0);
  }

  /** The unreadable counter counts exactly the walked paths whose `lstat` failed other than by vanishing. */
  lemma {:induction false} UnreadableCounted(fs: Fs, cfg: Settings, env: Env, walk: seq<Path>)
    ensures forall p :: p in UnreadableEntries(fs, cfg, env, walk) <==>
      p in walk && Lstat(fs, NormalizePath(p, cfg, env)) == StatFailed
    ensures |UnreadableEntries(fs, cfg, env, walk)| + |SizeItems(fs, cfg, env, walk)| <= |walk|
  {
    if |walk| > 0 {
      var init := walk[..|walk| - 1];
      UnreadableCounted(fs, cfg, env, init);
      assert forall p :: p in walk <==> p in init || p == walk[|walk| - 1];
    }
  }
}
