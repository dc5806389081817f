/**
 * Content comparison (`compute_hash_worker`, `identify_duplicates_by_hash`).
 * With partial hashing on, every bucketed path is first hashed on its first
 * chunk and only paths sharing (size, partial digest) with another path are
 * hashed in full; otherwise every bucketed path is hashed in full.  Paths
 * with one non-empty full digest form a duplicate set when there are two or
 * more of them.  The hash object is modelled by `env.digest` applied to all
 * the bytes fed to it.
 */
module Hashing {
  import opened Wrappers
  import opened Paths
  import opened FileSystem
  import opened Configuration
  import opened Dicts

  /** `DEFAULT_CHUNK_SIZE`: 64 KiB per read. */
  const ChunkSize: nat := 65536

  function Min(a: int, b: int): int
  {
    if a <= b then a else b
  }

  /**
   * The digest a worker reports for `path` under settings `s`: `None` when
   * the file cannot be opened, `""` for an empty file in partial mode (the
   * first read comes back empty), else the digest of the first chunk
   * (partial) or of the whole content (full).
   */
  function WorkerDigest(fs: Fs, s: Settings, env: Env, path: Path): Option<Digest>
  {
    match ReadContent(fs, NormalizePath(path, s, env))
    case None => None
    case Some(c) =>
      if !s.partialHash then Some(env.digest(c))
      else if |c| == 0 then Some("")
      else Some(env.digest(c[..Min(ChunkSize, |c|)]))
  }

  /** `compute_hash_worker`: the file is read chunk by chunk and every chunk fed to the hash. */
  method ComputeHashWorker(fs: Fs, s: Settings, env: Env, path: Path) returns (p: Path, h: Option<Digest>)
    ensures p == path && h == WorkerDigest(fs, s, env, path)
  {
    p := path;
    var file := ReadContent(fs, NormalizePath(path, s, env));
    if file.None? {
      return p, None;
    }
    var content := file.value;
    if s.partialHash {
      var chunk := content[..Min(ChunkSize, |content|)];
      if |chunk| == 0 {
        return p, Some("");
      }
      return p, Some(env.digest(chunk));
    }
    var fed: seq<byte> := [];
    var pos := 0;
    while pos < |content|
      invariant 0 <= pos <= |content|
      invariant fed == content[..pos]
    {
      var chunk := content[pos..Min(pos + ChunkSize, |content|)];
      fed := fed + chunk;
      pos := pos + |chunk|;
    }
    assert content[..|content|] == content;
    h := Some(env.digest(fed));
  }

  /** `pool.map(compute_hash_worker, ...)`: one `(path, digest)` per path, in order. */
  function Hashes(fs: Fs, s: Settings, env: Env, paths: seq<Path>): seq<(Path, Option<Digest>)>
  {
    if |paths| == 0 then []
    else
      var last := paths[|paths| - 1];
      Hashes(fs, s, env, paths[..|paths| - 1]) + [(last, WorkerDigest(fs, s, env, last))]
  }

  /** The pool, one task after the other: the order of results is the order of tasks. */
  method PoolMap(fs: Fs, s: Settings, env: Env, paths: seq<Path>) returns (results: seq<(Path, Option<Digest>)>)
    ensures results == Hashes(fs, s, env, paths)
  {
    results := [];
    var i := 0;
    while i < |paths|
      invariant 0 <= i <= |paths|
      invariant results == Hashes(fs, s, env, paths[..i])
    {
      assert paths[..i + 1][..i] == paths[..i];
      var p, h := ComputeHashWorker(fs, s, env, paths[i]);
      results := results + [(p, h)];
      i := i + 1;
    }
    assert paths[..|paths|] == paths;
  }

  // ----- stage 1: partial hashing -----

  /** `partial_hashes[path] = h` for each result, in order. */
  function HashMap(results: seq<(Path, Option<Digest>)>): map<Path, Option<Digest>>
  {
    if |results| == 0 then map[]
    else
      var last := results[|results| - 1];
      HashMap(results[..|results| - 1])[last.0 := last.1]
  }

  method CollectPartialHashes(results: seq<(Path, Option<Digest>)>) returns (m: map<Path, Option<Digest>>)
    ensures m == HashMap(results)
  {
    m := map[];
    var i := 0;
    while i < |results|
      invariant 0 <= i <= |results|
      invariant m == HashMap(results[..i])
    {
      assert results[..i + 1][..i] == results[..i];
      m := m[results[i].0 := results[i].1];
      i := i + 1;
    }
    assert results[..|results|] == results;
  }

  /** `partial_hashes.get(path)`. */
  function Probe(m: map<Path, Option<Digest>>, p: Path): Option<Digest>
  {
    if p in m then m[p] else None
  }

  /** `((size, phash), path)` for each path of one bucket that has a partial digest. */
  function BucketPartialItems(m: map<Path, Option<Digest>>, size: nat, paths: seq<Path>): seq<((nat, Digest), Path)>
  {
    if |paths| == 0 then []
    else
      var last := paths[|paths| - 1];
      BucketPartialItems(m, size, paths[..|paths| - 1])
        + match Probe(m, last) { case Some(h) => [((size, h), last)] case None => [] }
  }

  /** The same over all buckets, in bucket order. */
  function PartialItems(m: map<Path, Option<Digest>>, groups: Dict<nat, seq<Path>>): seq<((nat, Digest), Path)>
  {
    if |groups| == 0 then []
    else
      var last := groups[|groups| - 1];
      PartialItems(m, groups[..|groups| - 1]) + BucketPartialItems(m, last.0, last.1)
  }

  /** `potential_full_hash_groups`, filled bucket by bucket and path by path. */
  method GroupByPartialHash(m: map<Path, Option<Digest>>, groups: Dict<nat, seq<Path>>)
    returns (candidates: Dict<(nat, Digest), seq<Path>>)
    ensures candidates == Group(PartialItems(m, groups))
  {
    candidates := [];
    var b := 0;
    while b < |groups|
      invariant 0 <= b <= |groups|
      invariant candidates == Group(PartialItems(m, groups[..b]))
    {
      var (size, paths) := groups[b];
      candidates := GroupBucket(m, size, paths, candidates, PartialItems(m, groups[..b]));
      assert groups[..b + 1][..b] == groups[..b];
      b := b + 1;
    }
    assert groups[..|groups|] == groups;
  }

  /** The inner loop of `GroupByPartialHash`: one bucket's paths appended under (size, partial digest). */
  method GroupBucket(m: map<Path, Option<Digest>>, size: nat, paths: seq<Path>,
                     candidates0: Dict<(nat, Digest), seq<Path>>, ghost before: seq<((nat, Digest), Path)>)
    returns (candidates: Dict<(nat, Digest), seq<Path>>)
    requires candidates0 == Group(before)
    ensures candidates == Group(before + BucketPartialItems(m, size, paths))
  {
    candidates := candidates0;
    assert before + BucketPartialItems(m, size, paths[..0]) == before;
    var i := 0;
    while i < |paths|
      invariant 0 <= i <= |paths|
      invariant candidates == Group(before + BucketPartialItems(m, size, paths[..i]))
    {
      ghost var done := BucketPartialItems(m, size, paths[..i]);
      BucketItemsNext(m, size, paths, i);
      var phash := Probe(m, paths[i]);
      if phash.Some? {
        assert before + (done + [((size, phash.value), paths[i])]) == (before + done) + [((size, phash.value), paths[i])];
        GroupSnoc(before + done, (size, phash.value), paths[i]);
        candidates := Append(candidates, (size, phash.value), paths[i]);
      } else {
        assert done + [] == done;
      }
      i := i + 1;
    }
    assert paths[..|paths|] == paths;
  }

  /** One more path of the bucket adds its item exactly when it has a partial digest. */
  lemma BucketItemsNext(m: map<Path, Option<Digest>>, size: nat, paths: seq<Path>, i: nat)
    requires i < |paths|
    ensures BucketPartialItems(m, size, paths[..i + 1]) ==
      BucketPartialItems(m, size, paths[..i]) + if Probe(m, paths[i]).Some? then [((size, Probe(m, paths[i]).value), paths[i])] else []
  {
    assert paths[..i + 1][..i] == paths[..i];
  }

  /** The paths sharing (size, partial digest) with another path, group by group. */
  function Survivors(m: map<Path, Option<Digest>>, groups: Dict<nat, seq<Path>>): seq<Path>
  {
    Flatten(Multiples(Group(PartialItems(m, groups))))
  }

  /** `files_to_hash_full.extend(paths)` for each candidate group of two or more. */
  method CollectSurvivors(candidates: Dict<(nat, Digest), seq<Path>>) returns (files: seq<Path>)
    ensures files == Flatten(Multiples(candidates))
  {
    files := [];
    var j := 0;
    while j < |candidates|
      invariant 0 <= j <= |candidates|
      invariant files == Flatten(Multiples(candidates[..j]))
    {
      var front := candidates[..j + 1];
      assert front[..j] == candidates[..j];
      if |candidates[j].1| > 1 {
        var ms := Multiples(candidates[..j]);
        assert Multiples(front) == ms + [candidates[j]];
        assert (ms + [candidates[j]])[..|ms|] == ms;
        files := files + candidates[j].1;
      } else {
        assert Multiples(front) == Multiples(candidates[..j]);
      }
      j := j + 1;
    }
    assert candidates[..|candidates|] == candidates;
  }

  // ----- stage 2: full hashing -----

  /** The settings the full pass runs with: `partial_hash` switched off. */
  function FullSettings(s: Settings): Settings
  {
    s.(partialHash := false)
  }

  /** The paths hashed in full. */
  function ToHashFull(fs: Fs, s: Settings, env: Env, groups: Dict<nat, seq<Path>>): seq<Path>
  {
    if s.partialHash then Survivors(HashMap(Hashes(fs, s, env, Flatten(groups))), groups)
    else Flatten(groups)
  }

  /** `final_hashes[path] = h`, as an insertion-ordered dictionary. */
  function FinalHashes(results: seq<(Path, Option<Digest>)>): Dict<Path, Option<Digest>>
  {
    if |results| == 0 then []
    else
      var last := results[|results| - 1];
      Put(FinalHashes(results[..|results| - 1]), last.0, last.1)
  }

  method CollectFinalHashes(results: seq<(Path, Option<Digest>)>) returns (d: Dict<Path, Option<Digest>>)
    ensures d == FinalHashes(results)
  {
    d := [];
    var i := 0;
    while i < |results|
      invariant 0 <= i <= |results|
      invariant d == FinalHashes(results[..i])
    {
      assert results[..i + 1][..i] == results[..i];
      d := Put(d, results[i].0, results[i].1);
      i := i + 1;
    }
    assert results[..|results|] == results;
  }

  /** `(digest, path)` for each entry whose digest is truthy (present and non-empty). */
  function DigestItems(d: Dict<Path, Option<Digest>>): seq<(Digest, Path)>
  {
    if |d| == 0 then []
    else
      var last := d[|d| - 1];
      DigestItems(d[..|d| - 1])
        + if last.1.Some? && |last.1.value| > 0 then [(last.1.value, last.0)] else []
  }

  /** `files_by_full_hash`. */
  method GroupByFullHash(d: Dict<Path, Option<Digest>>) returns (byHash: Dict<Digest, seq<Path>>)
    ensures byHash == Group(DigestItems(d))
  {
    byHash := [];
    var i := 0;
    while i < |d|
      invariant 0 <= i <= |d|
      invariant byHash == Group(DigestItems(d[..i]))
    {
      var front := d[..i + 1];
      assert front[..i] == d[..i];
      var (path, fullHash) := d[i];
      if fullHash.Some? && |fullHash.value| > 0 {
        assert DigestItems(front) == DigestItems(d[..i]) + [(fullHash.value, path)];
        GroupSnoc(DigestItems(d[..i]), fullHash.value, path);
        byHash := Append(byHash, fullHash.value, path);
      } else {
        assert DigestItems(front) == DigestItems(d[..i]);
      }
      i := i + 1;
    }
    assert d[..|d|] == d;
  }

  /** `duplicates[h] = paths` for each digest shared by two or more paths. */
  method KeepShared(byHash: Dict<Digest, seq<Path>>) returns (duplicates: Dict<Digest, seq<Path>>)
    requires DistinctKeys(byHash)
    ensures duplicates == Multiples(byHash)
  {
    duplicates := [];
    var j := 0;
    while j < |byHash|
      invariant 0 <= j <= |byHash|
      invariant duplicates == Multiples(byHash[..j])
    {
      var front := byHash[..j + 1];
      assert front[..j] == byHash[..j];
      var (h, paths) := byHash[j];
      if |paths| > 1 {
        forall e | e in Multiples(byHash[..j]) ensures e.0 != h {
          MultiplesSub(byHash[..j], e);
          var i :| 0 <= i < j && byHash[i] == e;
        }
        GetMember(Multiples(byHash[..j]), h);
        PutFresh(Multiples(byHash[..j]), h, paths);
        duplicates := Put(duplicates, h, paths);
      } else {
        assert Multiples(front) == Multiples(byHash[..j]);
      }
      j := j + 1;
    }
    assert byHash[..|byHash|] == byHash;
  }

  /** What `identify_duplicates_by_hash` returns under the settings `s` it is called with. */
  function DuplicatesByHash(fs: Fs, s: Settings, env: Env, groups: Dict<nat, seq<Path>>): Dict<Digest, seq<Path>>
  {
    if |groups| == 0 then []
    else
      var full := ToHashFull(fs, s, env, groups);
      if |full| == 0 then []
      else Multiples(Group(DigestItems(FinalHashes(Hashes(fs, FullSettings(s), env, full)))))
  }

  /**
   * `identify_duplicates_by_hash`: the configuration's `partial_hash` is
   * switched off for the full pass and restored afterwards.
   */
  method IdentifyDuplicatesByHash(groupsToCheck: Dict<nat, seq<Path>>, cfg: Config, fs: Fs, env: Env)
    returns (duplicates: Dict<Digest, seq<Path>>)
    modifies cfg`partialHash
    ensures cfg.Value() == old(cfg.Value())
    ensures duplicates == DuplicatesByHash(fs, old(cfg.Value()), env, groupsToCheck)
  {
    if |groupsToCheck| == 0 {
      return [];
    }
    var s := cfg.Value();
    var filesToHashFull := FilesToHashFull(fs, s, env, groupsToCheck);
    if |filesToHashFull| == 0 {
      return [];
    }
    var originalPartialSetting := cfg.partialHash;
    cfg.partialHash := false;
    assert cfg.Value() == FullSettings(s);
    var results := PoolMap(fs, cfg.Value(), env, filesToHashFull);
    cfg.partialHash := originalPartialSetting;
    duplicates := SharedFullHashes(results);
  }

  /** Stage 1 of `identify_duplicates_by_hash`: the paths that go on to full hashing. */
  method FilesToHashFull(fs: Fs, s: Settings, env: Env, groupsToCheck: Dict<nat, seq<Path>>) returns (filesToHashFull: seq<Path>)
    ensures filesToHashFull == ToHashFull(fs, s, env, groupsToCheck)
  {
    if s.partialHash {
      var results := PoolMap(fs, s, env, Flatten(groupsToCheck));
      var partialHashes := CollectPartialHashes(results);
      var candidates := GroupByPartialHash(partialHashes, groupsToCheck);
      filesToHashFull := CollectSurvivors(candidates);
    } else {
      filesToHashFull := Flatten(groupsToCheck);
    }
  }

  /** Stage 2 after the pool: `final_hashes`, `files_by_full_hash` and the digests shared by two or more paths. */
  method SharedFullHashes(results: seq<(Path, Option<Digest>)>) returns (duplicates: Dict<Digest, seq<Path>>)
    ensures duplicates == Multiples(Group(DigestItems(FinalHashes(results))))
  {
    var finalHashes := CollectFinalHashes(results);
    var byHash := GroupByFullHash(finalHashes);
    GroupDistinct(DigestItems(finalHashes));
    duplicates := KeepShared(byHash);
  }

  // ----- what the hashing stage promises -----

  lemma {:induction false} HashesAt(fs: Fs, s: Settings, env: Env, paths: seq<Path>)
    ensures |Hashes(fs, s, env, paths)| == |paths|
    ensures forall i :: 0 <= i < |paths| ==> Hashes(fs, s, env, paths)[i] == (paths[i], WorkerDigest(fs, s, env, paths[i]))
  {
    if |paths| > 0 {
      HashesAt(fs, s, env, paths[..|paths| - 1]);
    }
  }

  /** After the partial pass, `partial_hashes.get(p)` is the worker's partial digest of every bucketed path. */
  lemma {:induction false} HashMapGet(fs: Fs, s: Settings, env: Env, paths: seq<Path>)
    ensures forall p :: p in paths ==> Probe(HashMap(Hashes(fs, s, env, paths)), p) == WorkerDigest(fs, s, env, p)
  {
    if |paths| > 0 {
      var init := paths[..|paths| - 1];
      HashMapGet(fs, s, env, init);
      var results := Hashes(fs, s, env, paths);
      assert results[..|results| - 1] == Hashes(fs, s, env, init);
      assert forall p :: p in paths <==> p in init || p == paths[|paths| - 1];
    }
  }

  lemma {:induction false} FinalHashesMembers(fs: Fs, s: Settings, env: Env, paths: seq<Path>)
    ensures forall e :: e in FinalHashes(Hashes(fs, s, env, paths)) ==> e.0 in paths && e.1 == WorkerDigest(fs, s, env, e.0)
  {
    if |paths| > 0 {
      var init, last := paths[..|paths| - 1], paths[|paths| - 1];
      FinalHashesMembers(fs, s, env, init);
      var results := Hashes(fs, s, env, paths);
      assert results[..|results| - 1] == Hashes(fs, s, env, init);
      PutMembers(FinalHashes(Hashes(fs, s, env, init)), last, WorkerDigest(fs, s, env, last));
      assert forall p :: p in init ==> p in paths;
    }
  }

  /** Hashing distinct paths, `final_hashes` holds every result in task order. */
  lemma {:induction false} FinalHashesDistinct(fs: Fs, s: Settings, env: Env, paths: seq<Path>)
    requires NoDuplicates(paths)
    ensures FinalHashes(Hashes(fs, s, env, paths)) == Hashes(fs, s, env, paths)
  {
    if |paths| > 0 {
      var init, last := paths[..|paths| - 1], paths[|paths| - 1];
      FinalHashesDistinct(fs, s, env, init);
      var results, before := Hashes(fs, s, env, paths), Hashes(fs, s, env, init);
      assert results[..|results| - 1] == before;
      assert Get(before, last).None? by {
        LastFresh(fs, s, env, paths);
      }
      PutFresh(before, last, WorkerDigest(fs, s, env, last));
    }
  }

  /** Hashing distinct paths, the last one is not a key of the results before it. */
  lemma LastFresh(fs: Fs, s: Settings, env: Env, paths: seq<Path>)
    requires NoDuplicates(paths) && |paths| > 0
    ensures Get(Hashes(fs, s, env, paths[..|paths| - 1]), paths[|paths| - 1]).None?
  {
    var init, last := paths[..|paths| - 1], paths[|paths| - 1];
    var before := Hashes(fs, s, env, init);
    HashesAt(fs, s, env, init);
    forall e | e in before ensures e.0 != last {
      var i :| 0 <= i < |before| && before[i] == e;
      assert paths[i] == init[i];
    }
    GetMember(before, last);
  }

  lemma {:induction false} DigestItemsMembers(d: Dict<Path, Option<Digest>>)
    ensures forall it :: it in DigestItems(d) ==> (it.1, Some(it.0)) in d && |it.0| > 0
  {
    if |d| > 0 {
      DigestItemsMembers(d[..|d| - 1]);
      assert forall e :: e in d[..|d| - 1] ==> e in d;
      assert d[|d| - 1] in d;
    }
  }

  /** The paths of `paths` whose full digest is `h`, in order: the reference meaning of a duplicate set. */
  function Matching(fs: Fs, s: Settings, env: Env, paths: seq<Path>, h: Digest): seq<Path>
  {
    if |paths| == 0 then []
    else
      var last := paths[|paths| - 1];
      Matching(fs, s, env, paths[..|paths| - 1], h)
        + if WorkerDigest(fs, FullSettings(s), env, last) == Some(h) then [last] else []
  }

  lemma {:induction false} MatchingMembers(fs: Fs, s: Settings, env: Env, paths: seq<Path>, h: Digest)
    ensures forall p :: p in Matching(fs, s, env, paths, h) <==> p in paths && WorkerDigest(fs, FullSettings(s), env, p) == Some(h)
  {
    if |paths| > 0 {
      MatchingMembers(fs, s, env, paths[..|paths| - 1], h);
      assert forall p :: p in paths <==> p in paths[..|paths| - 1] || p == paths[|paths| - 1];
    }
  }

  lemma {:induction false} SelectDigestItems(fs: Fs, s: Settings, env: Env, paths: seq<Path>, h: Digest)
    requires |h| > 0
    ensures Select(DigestItems(Hashes(fs, FullSettings(s), env, paths)), h) == Matching(fs, s, env, paths, h)
  {
    if |paths| > 0 {
      var init, last := paths[..|paths| - 1], paths[|paths| - 1];
      SelectDigestItems(fs, s, env, init, h);
      var results := Hashes(fs, FullSettings(s), env, paths);
      assert results[..|results| - 1] == Hashes(fs, FullSettings(s), env, init);
      var items, before := DigestItems(results), DigestItems(Hashes(fs, FullSettings(s), env, init));
      var digest := WorkerDigest(fs, FullSettings(s), env, last);
      if digest.Some? && |digest.value| > 0 {
        assert items == before + [(digest.value, last)];
        assert items[..|items| - 1] == before;
      } else {
        assert items == before;
      }
    }
  }

  lemma {:induction false} BucketItemsMembers(m: map<Path, Option<Digest>>, size: nat, paths: seq<Path>)
    ensures forall it :: it in BucketPartialItems(m, size, paths) <==>
      it.1 in paths && it.0.0 == size && Probe(m, it.1) == Some(it.0.1)
  {
    if |paths| > 0 {
      BucketItemsMembers(m, size, paths[..|paths| - 1]);
      assert forall p :: p in paths <==> p in paths[..|paths| - 1] || p == paths[|paths| - 1];
    }
  }

  lemma {:induction false} PartialItemsHas(m: map<Path, Option<Digest>>, groups: Dict<nat, seq<Path>>, size: nat, paths: seq<Path>)
    requires (size, paths) in groups
    ensures forall it :: it in BucketPartialItems(m, size, paths) ==> it in PartialItems(m, groups)
  {
    var last := groups[|groups| - 1];
    if last != (size, paths) {
      var i :| 0 <= i < |groups| && groups[i] == (size, paths);
      assert groups[..|groups| - 1][i] == (size, paths);
      PartialItemsHas(m, groups[..|groups| - 1], size, paths);
    }
  }

  lemma {:induction false} PartialItemsWithin(m: map<Path, Option<Digest>>, groups: Dict<nat, seq<Path>>)
    ensures multiset(Seconds(PartialItems(m, groups))) <= multiset(Flatten(groups))
  {
    if |groups| > 0 {
      var init, last := groups[..|groups| - 1], groups[|groups| - 1];
      PartialItemsWithin(m, init);
      BucketItemsWithin(m, last.0, last.1);
      SecondsConcat(PartialItems(m, init), BucketPartialItems(m, last.0, last.1));
    }
  }

  lemma {:induction false} BucketItemsWithin(m: map<Path, Option<Digest>>, size: nat, paths: seq<Path>)
    ensures multiset(Seconds(BucketPartialItems(m, size, paths))) <= multiset(paths)
  {
    if |paths| > 0 {
      var init, last := paths[..|paths| - 1], paths[|paths| - 1];
      BucketItemsWithin(m, size, init);
      MultisetSnoc(paths);
      var items := BucketPartialItems(m, size, paths);
      var before := BucketPartialItems(m, size, init);
      if Probe(m, last).Some? {
        assert items == before + [((size, Probe(m, last).value), last)];
        SecondsConcat(before, [((size, Probe(m, last).value), last)]);
        assert Seconds([((size, Probe(m, last).value), last)]) == [last];
      } else {
        assert items == before;
      }
    }
  }

  /** What is hashed in full is drawn from the buckets, each bucketed path at most as often as it is bucketed. */
  lemma ToHashFullWithin(fs: Fs, s: Settings, env: Env, groups: Dict<nat, seq<Path>>)
    ensures multiset(ToHashFull(fs, s, env, groups)) <= multiset(Flatten(groups))
  {
    if s.partialHash {
      var m := HashMap(Hashes(fs, s, env, Flatten(groups)));
      var items := PartialItems(m, groups);
      MultiplesFlattenSub(Group(items));
      GroupFlatten(items);
      PartialItemsWithin(m, groups);
    }
  }

  lemma ToHashFullDistinct(fs: Fs, s: Settings, env: Env, groups: Dict<nat, seq<Path>>)
    requires NoDuplicates(Flatten(groups))
    ensures NoDuplicates(ToHashFull(fs, s, env, groups))
  {
    ToHashFullWithin(fs, s, env, groups);
    NoDuplicatesCount(Flatten(groups));
    NoDuplicatesCount(ToHashFull(fs, s, env, groups));
  }

  /**
   * Every reported set holds two or more bucketed paths under a non-empty
   * digest, and each of them could be read and its whole content hashes to
   * that digest; in particular an unreadable file is never reported.
   */
  lemma DuplicatesSound(fs: Fs, s: Settings, env: Env, groups: Dict<nat, seq<Path>>)
    ensures forall e :: e in DuplicatesByHash(fs, s, env, groups) ==>
      |e.1| >= 2 && |e.0| > 0 &&
      forall p :: p in e.1 ==>
        p in Flatten(groups) &&
        ReadContent(fs, NormalizePath(p, s, env)).Some? &&
        env.digest(ReadContent(fs, NormalizePath(p, s, env)).value) == e.0
  {
    if |groups| > 0 && |ToHashFull(fs, s, env, groups)| > 0 {
      var full := ToHashFull(fs, s, env, groups);
      var items := DigestItems(FinalHashes(Hashes(fs, FullSettings(s), env, full)));
      forall e | e in Multiples(Group(items))
        ensures |e.1| >= 2 && |e.0| > 0
        ensures forall p :: p in e.1 ==>
          p in Flatten(groups) &&
          ReadContent(fs, NormalizePath(p, s, env)).Some? &&
          env.digest(ReadContent(fs, NormalizePath(p, s, env)).value) == e.0
      {
        SetSound(fs, s, env, groups, e);
      }
    }
  }

  /** One reported set of `DuplicatesSound`. */
  lemma SetSound(fs: Fs, s: Settings, env: Env, groups: Dict<nat, seq<Path>>, e: (Digest, seq<Path>))
    requires e in Multiples(Group(DigestItems(FinalHashes(Hashes(fs, FullSettings(s), env, ToHashFull(fs, s, env, groups))))))
    ensures |e.1| >= 2 && |e.0| > 0
    ensures forall p :: p in e.1 ==>
      p in Flatten(groups) &&
      ReadContent(fs, NormalizePath(p, s, env)).Some? &&
      env.digest(ReadContent(fs, NormalizePath(p, s, env)).value) == e.0
  {
    var full := ToHashFull(fs, s, env, groups);
    var d := FinalHashes(Hashes(fs, FullSettings(s), env, full));
    var items := DigestItems(d);
    MultiplesMembers(Group(items));
    GroupEntries(items);
    SelectMembers(items, e.0);
    DigestItemsMembers(d);
    forall p | p in e.1
      ensures p in Flatten(groups)
      ensures ReadContent(fs, NormalizePath(p, s, env)).Some?
      ensures env.digest(ReadContent(fs, NormalizePath(p, s, env)).value) == e.0
    {
      assert (p, Some(e.0)) in d;
      PathSound(fs, s, env, groups, p, e.0);
    }
    assert e.1[0] in e.1;
  }

  /** A path with a full digest in `final_hashes` was bucketed and its whole content hashes to that digest. */
  lemma PathSound(fs: Fs, s: Settings, env: Env, groups: Dict<nat, seq<Path>>, p: Path, h: Digest)
    requires (p, Some(h)) in FinalHashes(Hashes(fs, FullSettings(s), env, ToHashFull(fs, s, env, groups)))
    ensures p in Flatten(groups)
    ensures ReadContent(fs, NormalizePath(p, s, env)).Some?
    ensures env.digest(ReadContent(fs, NormalizePath(p, s, env)).value) == h
  {
    var full := ToHashFull(fs, s, env, groups);
    FinalHashesMembers(fs, FullSettings(s), env, full);
    ToHashFullWithin(fs, s, env, groups);
    assert p in multiset(full);
    assert NormalizePath(p, FullSettings(s), env) == NormalizePath(p, s, env);
  }

  /**
   * With distinct paths to hash in full, the set reported under a non-empty
   * digest `h` is exactly the paths hashed in full whose content hashes to
   * `h`, in hashing order, and it is reported exactly when there are two or
   * more of them.
   */
  lemma DuplicatesExact(fs: Fs, s: Settings, env: Env, groups: Dict<nat, seq<Path>>, h: Digest)
    requires NoDuplicates(ToHashFull(fs, s, env, groups))
    requires |h| > 0
    ensures var m := Matching(fs, s, env, ToHashFull(fs, s, env, groups), h);
      Get(DuplicatesByHash(fs, s, env, groups), h) == if |m| >= 2 then Some(m) else None
  {
    var full := ToHashFull(fs, s, env, groups);
    if |groups| == 0 {
      assert Flatten(groups) == [];
      assert PartialItems(HashMap(Hashes(fs, s, env, Flatten(groups))), groups) == [];
      assert full == [];
    } else if |full| > 0 {
      FinalHashesDistinct(fs, FullSettings(s), env, full);
      var items := DigestItems(Hashes(fs, FullSettings(s), env, full));
      SelectDigestItems(fs, s, env, full, h);
      GroupGet(items, h);
      GroupDistinct(items);
      MultiplesGet(Group(items), h);
    }
  }

  /**
   * Two different bucketed paths of one bucket with the same readable
   * content end up in the same reported set, whether or not partial hashing
   * is on: the partial pass never separates true duplicates.
   */
  lemma TwinsReported(fs: Fs, s: Settings, env: Env, groups: Dict<nat, seq<Path>>, size: nat, paths: seq<Path>, p: Path, q: Path)
    requires NoDuplicates(Flatten(groups))
    requires (size, paths) in groups && p in paths && q in paths && p != q
    requires ReadContent(fs, NormalizePath(p, s, env)).Some?
    requires ReadContent(fs, NormalizePath(q, s, env)) == ReadContent(fs, NormalizePath(p, s, env))
    requires |env.digest(ReadContent(fs, NormalizePath(p, s, env)).value)| > 0
    ensures var h := env.digest(ReadContent(fs, NormalizePath(p, s, env)).value);
      Get(DuplicatesByHash(fs, s, env, groups), h).Some? &&
      p in Get(DuplicatesByHash(fs, s, env, groups), h).value &&
      q in Get(DuplicatesByHash(fs, s, env, groups), h).value
  {
    var h := env.digest(ReadContent(fs, NormalizePath(p, s, env)).value);
    var full := ToHashFull(fs, s, env, groups);
    FlattenMembers(groups);
    assert p in Flatten(groups) && q in Flatten(groups);
    if s.partialHash {
      BothSurvive(fs, s, env, groups, size, paths, p, q);
    }
    assert p in full && q in full;
    ToHashFullDistinct(fs, s, env, groups);
    MatchingMembers(fs, s, env, full, h);
    var m := Matching(fs, s, env, full, h);
    TwoDistinct(m, p, q);
    DuplicatesExact(fs, s, env, groups, h);
  }

  lemma BothSurvive(fs: Fs, s: Settings, env: Env, groups: Dict<nat, seq<Path>>, size: nat, paths: seq<Path>, p: Path, q: Path)
    requires s.partialHash
    requires (size, paths) in groups && p in paths && q in paths && p != q
    requires p in Flatten(groups) && q in Flatten(groups)
    requires ReadContent(fs, NormalizePath(p, s, env)).Some?
    requires ReadContent(fs, NormalizePath(q, s, env)) == ReadContent(fs, NormalizePath(p, s, env))
    ensures p in ToHashFull(fs, s, env, groups) && q in ToHashFull(fs, s, env, groups)
  {
    var m := HashMap(Hashes(fs, s, env, Flatten(groups)));
    var ph := WorkerDigest(fs, s, env, p).value;
    assert Probe(m, p) == Some(ph) && Probe(m, q) == Some(ph) by {
      HashMapGet(fs, s, env, Flatten(groups));
    }
    var items := PartialItems(m, groups);
    var key := (size, ph);
    assert (key, p) in items && (key, q) in items by {
      BucketItemsMembers(m, size, paths);
      assert (key, p) in BucketPartialItems(m, size, paths);
      assert (key, q) in BucketPartialItems(m, size, paths);
      PartialItemsHas(m, groups, size, paths);
    }
    var group := Select(items, key);
    MemberSelect(items, key, p);
    MemberSelect(items, key, q);
    TwoDistinct(group, p, q);
    assert (key, group) in Multiples(Group(items)) by {
      GroupGet(items, key);
      GetMember(Group(items), key);
      MultiplesMembers(Group(items));
    }
    FlattenMembers(Multiples(Group(items)));
  }

  // ----- partial mode changes no reported set -----

  /** A duplicate set does not depend on whether `partial_hash` was on in the settings it was specified with. */
  lemma {:induction false} MatchingFull(fs: Fs, s: Settings, env: Env, paths: seq<Path>, h: Digest)
    ensures Matching(fs, FullSettings(s), env, paths, h) == Matching(fs, s, env, paths, h)
  {
    if |paths| > 0 {
      MatchingFull(fs, s, env, paths[..|paths| - 1], h);
      assert FullSettings(FullSettings(s)) == FullSettings(s);
    }
  }

  /** Selecting the paths with one digest keeps them distinct. */
  lemma {:induction false} MatchingDistinct(fs: Fs, s: Settings, env: Env, paths: seq<Path>, h: Digest)
    requires NoDuplicates(paths)
    ensures NoDuplicates(Matching(fs, s, env, paths, h))
  {
    if |paths| > 0 {
      var init, last := paths[..|paths| - 1], paths[|paths| - 1];
      assert NoDuplicates(init) by {
        assert forall i :: 0 <= i < |init| ==> init[i] == paths[i];
      }
      MatchingDistinct(fs, s, env, init, h);
      var mi := Matching(fs, s, env, init, h);
      if WorkerDigest(fs, FullSettings(s), env, last) == Some(h) {
        MatchingMembers(fs, s, env, init, h);
        assert last !in init by {
          forall i | 0 <= i < |init| ensures init[i] != last {
            assert init[i] == paths[i];
          }
        }
        var r := mi + [last];
        forall i, j | 0 <= i < j < |r| ensures r[i] != r[j] {
          if j < |mi| {
            assert r[i] == mi[i] && r[j] == mi[j];
          } else {
            assert r[i] in mi;
          }
        }
      } else {
        assert Matching(fs, s, env, paths, h) == mi;
      }
    }
  }

  /**
   * Under an injective digest, a path whose full digest it shares with
   * another bucketed path has the same content, hence (buckets being keyed
   * by content length) the same bucket, so it survives the partial pass.
   */
  lemma PartnerSurvives(fs: Fs, s: Settings, env: Env, groups: Dict<nat, seq<Path>>, p: Path, q: Path, h: Digest)
    requires s.partialHash
    requires DistinctKeys(groups)
    requires forall e, x :: e in groups && x in e.1 && ReadContent(fs, NormalizePath(x, s, env)).Some? ==>
      |ReadContent(fs, NormalizePath(x, s, env)).value| == e.0
    requires forall a, b :: env.digest(a) == env.digest(b) ==> a == b
    requires p in Flatten(groups) && q in Flatten(groups) && p != q
    requires WorkerDigest(fs, FullSettings(s), env, p) == Some(h) && WorkerDigest(fs, FullSettings(s), env, q) == Some(h)
    ensures p in ToHashFull(fs, s, env, groups)
  {
    assert NormalizePath(p, FullSettings(s), env) == NormalizePath(p, s, env);
    assert NormalizePath(q, FullSettings(s), env) == NormalizePath(q, s, env);
    var cp, cq := ReadContent(fs, NormalizePath(p, s, env)), ReadContent(fs, NormalizePath(q, s, env));
    assert env.digest(cp.value) == env.digest(cq.value);
    assert cp == cq;
    FlattenMembers(groups);
    var ep :| ep in groups && p in ep.1;
    var eq :| eq in groups && q in eq.1;
    MemberGet(groups, ep.0, ep.1);
    MemberGet(groups, eq.0, eq.1);
    assert ep == eq;
    BothSurvive(fs, s, env, groups, ep.0, ep.1, p, q);
  }

  /**
   * Partial mode reports exactly the sets full mode does, given a digest
   * that never maps two contents to one value and buckets keyed by the
   * content length of each of their readable paths (what `lstat` gives for
   * a regular file that is not a symlink).
   */
  lemma PartialAgreesWithFull(fs: Fs, s: Settings, env: Env, groups: Dict<nat, seq<Path>>, h: Digest)
    requires s.partialHash
    requires NoDuplicates(Flatten(groups)) && DistinctKeys(groups)
    requires forall e, x :: e in groups && x in e.1 && ReadContent(fs, NormalizePath(x, s, env)).Some? ==>
      |ReadContent(fs, NormalizePath(x, s, env)).value| == e.0
    requires forall a, b :: env.digest(a) == env.digest(b) ==> a == b
    requires |h| > 0
    ensures Get(DuplicatesByHash(fs, s, env, groups), h).Some? <==> Get(DuplicatesByHash(fs, FullSettings(s), env, groups), h).Some?
    ensures Get(DuplicatesByHash(fs, s, env, groups), h).Some? ==>
      forall p :: p in Get(DuplicatesByHash(fs, s, env, groups), h).value <==> p in Get(DuplicatesByHash(fs, FullSettings(s), env, groups), h).value
  {
    var off := FullSettings(s);
    assert ToHashFull(fs, off, env, groups) == Flatten(groups);
    ToHashFullDistinct(fs, s, env, groups);
    DuplicatesExact(fs, s, env, groups, h);
    DuplicatesExact(fs, off, env, groups, h);
    MatchingFull(fs, s, env, Flatten(groups), h);
    SurvivorsMatch(fs, s, env, groups, h);
  }

  /** The survivors with full digest `h` are, when two or more, exactly the bucketed paths with that digest. */
  lemma SurvivorsMatch(fs: Fs, s: Settings, env: Env, groups: Dict<nat, seq<Path>>, h: Digest)
    requires s.partialHash
    requires NoDuplicates(Flatten(groups)) && DistinctKeys(groups)
    requires forall e, x :: e in groups && x in e.1 && ReadContent(fs, NormalizePath(x, s, env)).Some? ==>
      |ReadContent(fs, NormalizePath(x, s, env)).value| == e.0
    requires forall a, b :: env.digest(a) == env.digest(b) ==> a == b
    ensures var mOn, mOff := Matching(fs, s, env, ToHashFull(fs, s, env, groups), h), Matching(fs, s, env, Flatten(groups), h);
      (|mOn| >= 2 <==> |mOff| >= 2) && (|mOn| >= 2 ==> forall p :: p in mOn <==> p in mOff)
  {
    var mOn, mOff := Matching(fs, s, env, ToHashFull(fs, s, env, groups), h), Matching(fs, s, env, Flatten(groups), h);
    SurvivorsWithin(fs, s, env, groups, h);
    ToHashFullDistinct(fs, s, env, groups);
    MatchingDistinct(fs, s, env, ToHashFull(fs, s, env, groups), h);
    MatchingDistinct(fs, s, env, Flatten(groups), h);
    if |mOff| >= 2 {
      SurvivorsCover(fs, s, env, groups, h);
      assert mOff[0] in mOn && mOff[1] in mOn;
      TwoDistinct(mOn, mOff[0], mOff[1]);
    }
    if |mOn| >= 2 {
      assert mOn[0] in mOff && mOn[1] in mOff;
      TwoDistinct(mOff, mOn[0], mOn[1]);
    }
  }

  /** Every survivor with digest `h` is a bucketed path with digest `h`. */
  lemma SurvivorsWithin(fs: Fs, s: Settings, env: Env, groups: Dict<nat, seq<Path>>, h: Digest)
    ensures forall p :: p in Matching(fs, s, env, ToHashFull(fs, s, env, groups), h) ==> p in Matching(fs, s, env, Flatten(groups), h)
  {
    var surv := ToHashFull(fs, s, env, groups);
    MatchingMembers(fs, s, env, surv, h);
    MatchingMembers(fs, s, env, Flatten(groups), h);
    ToHashFullWithin(fs, s, env, groups);
    forall p | p in Matching(fs, s, env, surv, h) ensures p in Flatten(groups) {
      assert p in multiset(surv);
    }
  }

  /** When two or more bucketed paths have digest `h`, all of them survive the partial pass. */
  lemma SurvivorsCover(fs: Fs, s: Settings, env: Env, groups: Dict<nat, seq<Path>>, h: Digest)
    requires s.partialHash
    requires NoDuplicates(Flatten(groups)) && DistinctKeys(groups)
    requires forall e, x :: e in groups && x in e.1 && ReadContent(fs, NormalizePath(x, s, env)).Some? ==>
      |ReadContent(fs, NormalizePath(x, s, env)).value| == e.0
    requires forall a, b :: env.digest(a) == env.digest(b) ==> a == b
    requires |Matching(fs, s, env, Flatten(groups), h)| >= 2
    ensures forall p :: p in Matching(fs, s, env, Flatten(groups), h) ==> p in Matching(fs, s, env, ToHashFull(fs, s, env, groups), h)
  {
    var mOff := Matching(fs, s, env, Flatten(groups), h);
    MatchingMembers(fs, s, env, ToHashFull(fs, s, env, groups), h);
    MatchingMembers(fs, s, env, Flatten(groups), h);
    MatchingDistinct(fs, s, env, Flatten(groups), h);
    assert mOff[0] != mOff[1];
    forall p | p in mOff ensures p in ToHashFull(fs, s, env, groups) {
      var q := if mOff[0] != p then mOff[0] else mOff[1];
      assert q in mOff && q != p;
      PartnerSurvives(fs, s, env, groups, p, q, h);
    }
  }

  // ----- partial mode as written: a symbolic link's bucket -----

  /** A path that shares its (size, partial digest) key with no other item is not hashed in full. */
  lemma LoneKeyDropped(m: map<Path, Option<Digest>>, groups: Dict<nat, seq<Path>>, p: Path)
    requires forall k :: (k, p) in PartialItems(m, groups) ==> |Select(PartialItems(m, groups), k)| < 2
    ensures p !in Survivors(m, groups)
  {
    var items := PartialItems(m, groups);
    var byKey := Group(items);
    GroupEntries(items);
    MultiplesMembers(byKey);
    forall e | e in Multiples(byKey) ensures p !in e.1 {
      MultiplesSub(byKey, e);
      assert e in byKey;
      assert |e.1| > 1;
      assert e.1 == Select(items, e.0);
      assert (e.0, p) !in items;
      SelectMembers(items, e.0);
    }
    FlattenMembers(Multiples(byKey));
  }

  /**
   * Two regular files `A` and `B` with content `[1, 1]`, a symbolic link `L`
   * to `A` and a regular file `F` with content `[2]`.  `lstat` gives the link
   * the length of its target, 1, so the scan buckets it with `F`.
   */
  function LinkFs(): Fs
  {
    map["A" := Entry(Regular, 2, [1, 1], None, 0, true, true, false),
        "B" := Entry(Regular, 2, [1, 1], None, 0, true, true, false),
        "L" := Entry(Symlink("A"), 1, [], None, 0, true, true, false),
        "F" := Entry(Regular, 1, [2], None, 0, true, true, false)]
  }

  /** The buckets the scan builds for `LinkFs`. */
  function LinkGroups(): Dict<nat, seq<Path>>
  {
    [(1, ["L", "F"]), (2, ["A", "B"])]
  }

  /** A report-only run with partial hashing on. */
  function LinkSettings(): Settings
  {
    Settings("", 1, true, false, false, false, NoAction, KeepFirst, None, 2)
  }

  /** What the workers report for the four paths, with partial hashing on and off. */
  lemma LinkDigests(env: Env)
    ensures var fs, s, h := LinkFs(), LinkSettings(), env.digest([1, 1]);
      WorkerDigest(fs, s, env, "L") == Some(h) && WorkerDigest(fs, s, env, "F") == Some(env.digest([2])) &&
      WorkerDigest(fs, s, env, "A") == Some(h) && WorkerDigest(fs, s, env, "B") == Some(h) &&
      WorkerDigest(fs, FullSettings(s), env, "L") == Some(h) && WorkerDigest(fs, FullSettings(s), env, "F") == Some(env.digest([2])) &&
      WorkerDigest(fs, FullSettings(s), env, "A") == Some(h) && WorkerDigest(fs, FullSettings(s), env, "B") == Some(h)
  {
    var fs, s := LinkFs(), LinkSettings();
    assert Resolve(fs, "L") == Some("A");
    var c: seq<byte> := [1, 1];
    assert c[..Min(ChunkSize, |c|)] == c;
    var d: seq<byte> := [2];
    assert d[..Min(ChunkSize, |d|)] == d;
  }

  lemma BucketTwo(m: map<Path, Option<Digest>>, size: nat, a: Path, b: Path, x: Digest, y: Digest)
    requires Probe(m, a) == Some(x) && Probe(m, b) == Some(y)
    ensures BucketPartialItems(m, size, [a, b]) == [((size, x), a), ((size, y), b)]
  {
    var ab, one := [a, b], [a];
    assert ab[..1] == one && |one[..0]| == 0;
    assert BucketPartialItems(m, size, one) == [((size, x), a)];
    assert BucketPartialItems(m, size, ab) == BucketPartialItems(m, size, one) + [((size, y), b)];
  }

  lemma PartialItemsTwo(m: map<Path, Option<Digest>>, g1: (nat, seq<Path>), g2: (nat, seq<Path>))
    ensures PartialItems(m, [g1, g2]) == BucketPartialItems(m, g1.0, g1.1) + BucketPartialItems(m, g2.0, g2.1)
  {
    var gs, one := [g1, g2], [g1];
    assert gs[..1] == one && |one[..0]| == 0;
    assert PartialItems(m, one) == BucketPartialItems(m, g1.0, g1.1);
  }

  lemma SelectFirstOfFour<K, X>(items: seq<(K, X)>, k: K)
    requires |items| == 4 && items[0].0 == k && items[1].0 != k && items[2].0 != k && items[3].0 != k
    ensures Select(items, k) == [items[0].1]
  {
    var i3, i2, i1 := items[..3], items[..2], items[..1];
    assert i3[..2] == i2 && i2[..1] == i1 && |i1[..0]| == 0;
    assert Select(i1, k) == [items[0].1];
    assert Select(i2, k) == Select(i1, k);
    assert Select(i3, k) == Select(i2, k);
  }

  /** In partial mode the link's key `(1, digest [1, 1])` is its own: `F`'s partial digest differs. */
  lemma LinkKeyAlone(env: Env)
    requires env.digest([1, 1]) != env.digest([2])
    ensures var fs, s := LinkFs(), LinkSettings();
      "L" !in ToHashFull(fs, s, env, LinkGroups())
  {
    var fs, s, groups := LinkFs(), LinkSettings(), LinkGroups();
    var h, h2 := env.digest([1, 1]), env.digest([2]);
    var m := HashMap(Hashes(fs, s, env, Flatten(groups)));
    assert Flatten(groups) == ["L", "F", "A", "B"] by {
      assert groups[..1] == [(1, ["L", "F"])];
    }
    assert Probe(m, "L") == Some(h) && Probe(m, "F") == Some(h2) && Probe(m, "A") == Some(h) && Probe(m, "B") == Some(h) by {
      LinkDigests(env);
      HashMapGet(fs, s, env, Flatten(groups));
    }
    var items: seq<((nat, Digest), Path)> := [((1, h), "L"), ((1, h2), "F"), ((2, h), "A"), ((2, h), "B")];
    assert PartialItems(m, groups) == items by {
      BucketTwo(m, 1, "L", "F", h, h2);
      BucketTwo(m, 2, "A", "B", h, h);
      PartialItemsTwo(m, (1, ["L", "F"]), (2, ["A", "B"]));
    }
    assert Select(items, (1, h)) == ["L"] by {
      SelectFirstOfFour(items, (1, h));
    }
    forall k | (k, "L") in items ensures |Select(items, k)| < 2 {
      var i :| 0 <= i < 4 && items[i] == (k, "L");
      assert i == 0;
    }
    LoneKeyDropped(m, groups, "L");
  }

  /** With partial hashing off, the paths whose full digest is that of `[1, 1]` are `L`, `A`, `B`, in walk order. */
  lemma LinkFullOrder(env: Env)
    requires env.digest([1, 1]) != env.digest([2])
    ensures var off := FullSettings(LinkSettings());
      Matching(LinkFs(), off, env, ["L", "F", "A", "B"], env.digest([1, 1])) == ["L", "A", "B"]
  {
    var fs, off, h := LinkFs(), FullSettings(LinkSettings()), env.digest([1, 1]);
    LinkDigests(env);
    assert FullSettings(off) == off;
    var all: seq<Path> := ["L", "F", "A", "B"];
    var i3, i2, i1 := all[..3], all[..2], all[..1];
    assert i3[..2] == i2 && i2[..1] == i1 && |i1[..0]| == 0;
    assert Matching(fs, off, env, i1, h) == ["L"];
    assert Matching(fs, off, env, i2, h) == ["L"];
    assert Matching(fs, off, env, i3, h) == ["L", "A"];
  }

  /**
   * The discrepancy: with partial hashing off the link is reported first,
   * before `A` and `B`, whose content it names (so keep `first` keeps the
   * link and processes both files); with partial hashing on the same set
   * is reported without it.
   */
  lemma LinkSplitsModes(env: Env)
    requires |env.digest([1, 1])| > 0 && env.digest([1, 1]) != env.digest([2])
    ensures var fs, s, groups, h := LinkFs(), LinkSettings(), LinkGroups(), env.digest([1, 1]);
      var full, part := Get(DuplicatesByHash(fs, FullSettings(s), env, groups), h), Get(DuplicatesByHash(fs, s, env, groups), h);
      full == Some(["L", "A", "B"]) &&
      part.Some? && "A" in part.value && "B" in part.value && "L" !in part.value
  {
    var fs, s, groups, h := LinkFs(), LinkSettings(), LinkGroups(), env.digest([1, 1]);
    var off := FullSettings(s);
    assert Flatten(groups) == ["L", "F", "A", "B"] by {
      assert groups[..1] == [(1, ["L", "F"])];
    }
    assert NoDuplicates(Flatten(groups));
    LinkDigests(env);
    assert WorkerDigest(fs, s, env, "A") == WorkerDigest(fs, s, env, "B");
    assert ReadContent(fs, NormalizePath("A", s, env)) == Some([1, 1]);
    assert ReadContent(fs, NormalizePath("B", s, env)) == Some([1, 1]);
    TwinsReported(fs, s, env, groups, 2, ["A", "B"], "A", "B");
    // full mode: every bucketed path is hashed in full
    assert ToHashFull(fs, off, env, groups) == Flatten(groups);
    LinkFullOrder(env);
    DuplicatesExact(fs, off, env, groups, h);
    // partial mode: the link is not hashed in full, so no reported set holds it
    LinkKeyAlone(env);
    var surv := ToHashFull(fs, s, env, groups);
    ToHashFullDistinct(fs, s, env, groups);
    MatchingMembers(fs, s, env, surv, h);
    DuplicatesExact(fs, s, env, groups, h);
  }
}
