/**
 * Hardlink detection (`identify_hardlinks`): inside every size bucket the
 * paths are grouped by file identity (device and inode, or the NTFS file
 * index).  Identities shared by two or more paths are hardlink sets, which
 * are reported and never hashed; what is left of the bucket — the paths
 * with an identity of their own and the paths whose identity could not be
 * read — goes on to hashing when two or more remain.
 */
module Hardlinks {
  import opened Wrappers
  import opened Paths
  import opened FileSystem
  import opened Configuration
  import opened Dicts

  /**
   * `get_file_id(normalize_path(p))`: the file's identity, `None` on
   * Windows without pywin32 and wherever the underlying call raises.
   */
  function KeyOf(fs: Fs, cfg: Settings, env: Env, p: Path): Option<FileKey>
  {
    if env.onWindows && !env.win32Available then None
    else FileKeyOf(fs, NormalizePath(p, cfg, env))
  }

  /** `(identity, path)` for each path appended to `files_by_id`, in bucket order. */
  function KeyedItems(fs: Fs, cfg: Settings, env: Env, paths: seq<Path>): seq<(FileKey, Path)>
  {
    if |paths| == 0 then []
    else
      var last := paths[|paths| - 1];
      KeyedItems(fs, cfg, env, paths[..|paths| - 1])
        + match KeyOf(fs, cfg, env, last) { case Some(k) => [(k, last)] case None => [] }
  }

  /** `paths_without_id`: the paths of the bucket whose identity is unknown. */
  function Unkeyed(fs: Fs, cfg: Settings, env: Env, paths: seq<Path>): seq<Path>
  {
    if |paths| == 0 then []
    else
      var last := paths[|paths| - 1];
      Unkeyed(fs, cfg, env, paths[..|paths| - 1])
        + (if KeyOf(fs, cfg, env, last).None? then [last] else [])
  }

  /** The paths of the identity groups of length one, in group order. */
  function Singles<K, X>(d: Dict<K, seq<X>>): seq<X>
  {
    if |d| == 0 then []
    else
      var last := d[|d| - 1];
      Singles(d[..|d| - 1]) + (if |last.1| > 1 then [] else last.1)
  }

  /** `hardlinks_found[k].extend(lp)` for each `(k, lp)` of `groups`, in order. */
  function ExtendAll<K(==), X>(found: Dict<K, seq<X>>, groups: Dict<K, seq<X>>): Dict<K, seq<X>>
  {
    if |groups| == 0 then found
    else
      var last := groups[|groups| - 1];
      Extend(ExtendAll(found, groups[..|groups| - 1]), last.0, last.1)
  }

  /** `size * (len(lp) - 1)` summed over the identity groups `lp` of two or more. */
  function SharedSpace<K>(size: nat, d: Dict<K, seq<Path>>): nat
  {
    if |d| == 0 then 0
    else
      var last := d[|d| - 1];
      SharedSpace(size, d[..|d| - 1]) + (if |last.1| > 1 then size * (|last.1| - 1) else 0)
  }

  /** The identity groups of one bucket. */
  function ById(fs: Fs, cfg: Settings, env: Env, paths: seq<Path>): Dict<FileKey, seq<Path>>
  {
    Group(KeyedItems(fs, cfg, env, paths))
  }

  /** `remaining_paths` of one bucket: the single-identity paths, then the unidentified ones. */
  function Residual(fs: Fs, cfg: Settings, env: Env, paths: seq<Path>): seq<Path>
  {
    Singles(ById(fs, cfg, env, paths)) + Unkeyed(fs, cfg, env, paths)
  }

  /** The three results: buckets left to hash, hardlink sets, space they share. */
  datatype HardlinkResult = HardlinkResult(
    toCheck: Dict<nat, seq<Path>>,
    hardlinks: Dict<FileKey, seq<Path>>,
    space: nat)

  /** What `identify_hardlinks` returns for the size buckets `groups`. */
  function Identify(fs: Fs, cfg: Settings, env: Env, groups: Dict<nat, seq<Path>>): HardlinkResult
  {
    if |groups| == 0 then HardlinkResult([], [], 0)
    else
      var prev := Identify(fs, cfg, env, groups[..|groups| - 1]);
      var size: nat, paths := groups[|groups| - 1].0, groups[|groups| - 1].1;
      var byId := ById(fs, cfg, env, paths);
      var residual := Residual(fs, cfg, env, paths);
      HardlinkResult(
        if |residual| > 1 then Put(prev.toCheck, size, residual) else prev.toCheck,
        ExtendAll(prev.hardlinks, Multiples(byId)),
        prev.space + SharedSpace(size, byId))
  }

  /** One bucket's step of `Identify`, stated over the bucket's identity groups and residual. */
  lemma IdentifyStep(fs: Fs, cfg: Settings, env: Env, groups: Dict<nat, seq<Path>>)
    requires |groups| > 0
    ensures var prev := Identify(fs, cfg, env, groups[..|groups| - 1]);
      var r := Identify(fs, cfg, env, groups);
      var size, paths := groups[|groups| - 1].0, groups[|groups| - 1].1;
      var residual := Residual(fs, cfg, env, paths);
      r.toCheck == (if |residual| > 1 then Put(prev.toCheck, size, residual) else prev.toCheck) &&
      r.hardlinks == ExtendAll(prev.hardlinks, Multiples(ById(fs, cfg, env, paths))) &&
      r.space == prev.space + SharedSpace(size, ById(fs, cfg, env, paths))
  {
  }

  /** `IdentifyStep` for the prefix of length `b + 1`. */
  lemma IdentifyNext(fs: Fs, cfg: Settings, env: Env, groups: Dict<nat, seq<Path>>, b: nat)
    requires b < |groups|
    ensures var prev := Identify(fs, cfg, env, groups[..b]);
      var size, paths := groups[b].0, groups[b].1;
      var residual := Residual(fs, cfg, env, paths);
      Identify(fs, cfg, env, groups[..b + 1]) == HardlinkResult(
        if |residual| > 1 then Put(prev.toCheck, size, residual) else prev.toCheck,
        ExtendAll(prev.hardlinks, Multiples(ById(fs, cfg, env, paths))),
        prev.space + SharedSpace(size, ById(fs, cfg, env, paths)))
  {
    var front := groups[..b + 1];
    assert front[..b] == groups[..b] && front[b] == groups[b];
    IdentifyStep(fs, cfg, env, front);
  }

  /** The first inner loop: `files_by_id[file_id].append(path)` for each identified path. */
  method GroupById(fs: Fs, cfg: Settings, env: Env, paths: seq<Path>) returns (byId: Dict<FileKey, seq<Path>>)
    ensures byId == ById(fs, cfg, env, paths)
  {
    byId := [];
    var i := 0;
    while i < |paths|
      invariant 0 <= i <= |paths|
      invariant byId == Group(KeyedItems(fs, cfg, env, paths[..i]))
    {
      assert paths[..i + 1][..i] == paths[..i];
      var key := KeyOf(fs, cfg, env, paths[i]);
      assert KeyedItems(fs, cfg, env, paths[..i + 1])
        == KeyedItems(fs, cfg, env, paths[..i]) + if key.Some? then [(key.value, paths[i])] else [];
      if key.Some? {
        GroupSnoc(KeyedItems(fs, cfg, env, paths[..i]), key.value, paths[i]);
        byId := Append(byId, key.value, paths[i]);
      } else {
        assert KeyedItems(fs, cfg, env, paths[..i + 1]) == KeyedItems(fs, cfg, env, paths[..i]);
      }
      i := i + 1;
    }
    assert paths[..|paths|] == paths;
  }

  /**
   * The second inner loop: identity groups of two or more join the hardlink
   * sets and add `size * (len - 1)` to the shared space; the others are kept.
   */
  method SplitById(byId: Dict<FileKey, seq<Path>>, size: nat, found0: Dict<FileKey, seq<Path>>, space0: nat)
    returns (found: Dict<FileKey, seq<Path>>, remaining: seq<Path>, space: nat)
    ensures found == ExtendAll(found0, Multiples(byId))
    ensures remaining == Singles(byId)
    ensures space == space0 + SharedSpace(size, byId)
  {
    found, remaining, space := found0, [], space0;
    var j := 0;
    while j < |byId|
      invariant 0 <= j <= |byId|
      invariant found == ExtendAll(found0, Multiples(byId[..j]))
      invariant remaining == Singles(byId[..j])
      invariant space == space0 + SharedSpace(size, byId[..j])
    {
      var (fileId, linked) := byId[j];
      SplitByIdNext(byId, j, found0, size);
      if |linked| > 1 {
        found := Extend(found, fileId, linked);
        ghost var front := byId[..j + 1];
        assert space + size * (|linked| - 1) == space0 + SharedSpace(size, front);
        space := space + size * (|linked| - 1);
      } else {
        remaining := remaining + linked;
      }
      j := j + 1;
    }
    assert byId[..|byId|] == byId;
  }

  /** One identity group's step of `ExtendAll(..., Multiples(...))`, `Singles` and `SharedSpace`. */
  lemma SplitByIdNext(d: Dict<FileKey, seq<Path>>, j: nat, found0: Dict<FileKey, seq<Path>>, size: nat)
    requires j < |d|
    ensures var prefix, front, e := d[..j], d[..j + 1], d[j];
      ExtendAll(found0, Multiples(front))
        == (if |e.1| > 1 then Extend(ExtendAll(found0, Multiples(prefix)), e.0, e.1) else ExtendAll(found0, Multiples(prefix))) &&
      Singles(front) == Singles(prefix) + (if |e.1| > 1 then [] else e.1) &&
      SharedSpace(size, front) == SharedSpace(size, prefix) + (if |e.1| > 1 then size * (|e.1| - 1) else 0)
  {
    var front := d[..j + 1];
    assert front[..j] == d[..j] && front[j] == d[j];
    SplitByIdStep(front, found0, size);
  }

  lemma SplitByIdStep(d: Dict<FileKey, seq<Path>>, found0: Dict<FileKey, seq<Path>>, size: nat)
    requires |d| > 0
    ensures var init, last := d[..|d| - 1], d[|d| - 1];
      ExtendAll(found0, Multiples(d))
        == (if |last.1| > 1 then Extend(ExtendAll(found0, Multiples(init)), last.0, last.1) else ExtendAll(found0, Multiples(init))) &&
      Singles(d) == Singles(init) + (if |last.1| > 1 then [] else last.1) &&
      SharedSpace(size, d) == SharedSpace(size, init) + (if |last.1| > 1 then size * (|last.1| - 1) else 0)
  {
    var init, last := d[..|d| - 1], d[|d| - 1];
    if |last.1| > 1 {
      var m := Multiples(init);
      assert Multiples(d) == m + [last];
      assert (m + [last])[..|m|] == m;
    } else {
      assert Multiples(d) == Multiples(init);
    }
  }

  /** The loop of `identify_hardlinks`, bucket by bucket. */
  method IdentifyHardlinks(fs: Fs, cfg: Settings, env: Env, potentialGroups: Dict<nat, seq<Path>>)
    returns (r: HardlinkResult)
    ensures r == Identify(fs, cfg, env, potentialGroups)
  {
    var found: Dict<FileKey, seq<Path>> := [];
    var toCheck: Dict<nat, seq<Path>> := [];
    var space: nat := 0;
    var b := 0;
    while b < |potentialGroups|
      invariant 0 <= b <= |potentialGroups|
      invariant HardlinkResult(toCheck, found, space) == Identify(fs, cfg, env, potentialGroups[..b])
    {
      var (size, paths) := potentialGroups[b];
      IdentifyNext(fs, cfg, env, potentialGroups, b);
      toCheck, found, space := IdentifyBucket(fs, cfg, env, size, paths, toCheck, found, space);
      b := b + 1;
    }
    assert potentialGroups[..|potentialGroups|] == potentialGroups;
    r := HardlinkResult(toCheck, found, space);
  }

  /** The body of the loop of `identify_hardlinks`: one bucket. */
  method IdentifyBucket(fs: Fs, cfg: Settings, env: Env, size: nat, paths: seq<Path>,
                        toCheck0: Dict<nat, seq<Path>>, found0: Dict<FileKey, seq<Path>>, space0: nat)
    returns (toCheck: Dict<nat, seq<Path>>, found: Dict<FileKey, seq<Path>>, space: nat)
    ensures var residual := Residual(fs, cfg, env, paths);
      toCheck == if |residual| > 1 then Put(toCheck0, size, residual) else toCheck0
    ensures found == ExtendAll(found0, Multiples(ById(fs, cfg, env, paths)))
    ensures space == space0 + SharedSpace(size, ById(fs, cfg, env, paths))
  {
    var byId := GroupById(fs, cfg, env, paths);
    var remaining;
    found, remaining, space := SplitById(byId, size, found0, space0);
    remaining := remaining + Unkeyed(fs, cfg, env, paths);
    toCheck := toCheck0;
    if |remaining| > 1 {
      toCheck := Put(toCheck, size, remaining);
    }
  }

  // ----- what the hardlink stage promises -----

  lemma {:induction false} KeyedItemsMembers(fs: Fs, cfg: Settings, env: Env, paths: seq<Path>)
    ensures forall it :: it in KeyedItems(fs, cfg, env, paths) <==>
      it.1 in paths && KeyOf(fs, cfg, env, it.1) == Some(it.0)
  {
    if |paths| > 0 {
      KeyedItemsMembers(fs, cfg, env, paths[..|paths| - 1]);
      assert forall p :: p in paths <==> p in paths[..|paths| - 1] || p == paths[|paths| - 1];
    }
  }

  lemma {:induction false} UnkeyedMembers(fs: Fs, cfg: Settings, env: Env, paths: seq<Path>)
    ensures forall p :: p in Unkeyed(fs, cfg, env, paths) <==> p in paths && KeyOf(fs, cfg, env, p).None?
  {
    if |paths| > 0 {
      UnkeyedMembers(fs, cfg, env, paths[..|paths| - 1]);
      assert forall p :: p in paths <==> p in paths[..|paths| - 1] || p == paths[|paths| - 1];
    }
  }

  /** Every set has two or more paths, all drawn from `universe` and all with the set's identity. */
  ghost predicate LinkSets(fs: Fs, cfg: Settings, env: Env, d: Dict<FileKey, seq<Path>>, universe: seq<Path>)
  {
    forall e :: e in d ==>
      |e.1| >= 2 && forall p :: p in e.1 ==> p in universe && KeyOf(fs, cfg, env, p) == Some(e.0)
  }

  lemma BucketLinkSets(fs: Fs, cfg: Settings, env: Env, paths: seq<Path>, universe: seq<Path>)
    requires forall p :: p in paths ==> p in universe
    ensures LinkSets(fs, cfg, env, Multiples(ById(fs, cfg, env, paths)), universe)
  {
    var items := KeyedItems(fs, cfg, env, paths);
    MultiplesMembers(Group(items));
    GroupEntries(items);
    KeyedItemsMembers(fs, cfg, env, paths);
    forall e | e in Multiples(Group(items))
      ensures forall p :: p in e.1 ==> p in universe && KeyOf(fs, cfg, env, p) == Some(e.0)
    {
      SelectMembers(items, e.0);
    }
  }

  lemma ExtendLinkSets(fs: Fs, cfg: Settings, env: Env, d: Dict<FileKey, seq<Path>>, k: FileKey, xs: seq<Path>, universe: seq<Path>)
    requires LinkSets(fs, cfg, env, d, universe)
    requires |xs| >= 2
    requires forall p :: p in xs ==> p in universe && KeyOf(fs, cfg, env, p) == Some(k)
    ensures LinkSets(fs, cfg, env, Extend(d, k, xs), universe)
  {
    PutMembers(d, k, Lookup(d, k) + xs);
    GetMember(d, k);
  }

  lemma {:induction false} ExtendAllLinkSets(fs: Fs, cfg: Settings, env: Env, found: Dict<FileKey, seq<Path>>,
                                             groups: Dict<FileKey, seq<Path>>, universe: seq<Path>)
    requires LinkSets(fs, cfg, env, found, universe)
    requires LinkSets(fs, cfg, env, groups, universe)
    ensures LinkSets(fs, cfg, env, ExtendAll(found, groups), universe)
  {
    if |groups| > 0 {
      var last := groups[|groups| - 1];
      assert last in groups;
      assert forall e :: e in groups[..|groups| - 1] ==> e in groups;
      ExtendAllLinkSets(fs, cfg, env, found, groups[..|groups| - 1], universe);
      ExtendLinkSets(fs, cfg, env, ExtendAll(found, groups[..|groups| - 1]), last.0, last.1, universe);
    }
  }

  /**
   * Every reported hardlink set holds two or more of the bucketed paths,
   * and all of them have the set's file identity; in particular a path
   * whose identity could not be read is never in a set.
   */
  lemma {:induction false} HardlinkSetsSound(fs: Fs, cfg: Settings, env: Env, groups: Dict<nat, seq<Path>>)
    ensures LinkSets(fs, cfg, env, Identify(fs, cfg, env, groups).hardlinks, Flatten(groups))
  {
    if |groups| > 0 {
      var init, last := groups[..|groups| - 1], groups[|groups| - 1];
      var universe := Flatten(groups);
      assert universe == Flatten(init) + last.1;
      HardlinkSetsSound(fs, cfg, env, init);
      BucketLinkSets(fs, cfg, env, last.1, universe);
      ExtendAllLinkSets(fs, cfg, env, Identify(fs, cfg, env, init).hardlinks,
                        Multiples(ById(fs, cfg, env, last.1)), universe);
    }
  }

  /** A bucketed path with no readable identity always goes on to hashing with its bucket. */
  lemma UnkeyedStay(fs: Fs, cfg: Settings, env: Env, paths: seq<Path>, p: Path)
    requires p in paths && KeyOf(fs, cfg, env, p).None?
    ensures p in Residual(fs, cfg, env, paths)
  {
    UnkeyedMembers(fs, cfg, env, paths);
  }

  lemma {:induction false} SinglesSplit<K, X>(d: Dict<K, seq<X>>)
    ensures multiset(Flatten(d)) == multiset(Flatten(Multiples(d))) + multiset(Singles(d))
  {
    if |d| > 0 {
      var init, last := d[..|d| - 1], d[|d| - 1];
      SinglesSplit(init);
      SinglesStep(d);
      var big := |last.1| > 1;
      SplitStep(multiset(Flatten(d)), multiset(Flatten(init)), multiset(last.1),
                multiset(Flatten(Multiples(init))), multiset(Singles(init)),
                multiset(Flatten(Multiples(d))), multiset(Singles(d)), big);
    }
  }

  /** One group's step of `Flatten`, `Flatten(Multiples(...))` and `Singles`. */
  lemma SinglesStep<K, X>(d: Dict<K, seq<X>>)
    requires |d| > 0
    ensures var init, last := d[..|d| - 1], d[|d| - 1];
      multiset(Flatten(d)) == multiset(Flatten(init)) + multiset(last.1) &&
      multiset(Flatten(Multiples(d))) == multiset(Flatten(Multiples(init))) + (if |last.1| > 1 then multiset(last.1) else multiset{}) &&
      multiset(Singles(d)) == multiset(Singles(init)) + (if |last.1| > 1 then multiset{} else multiset(last.1))
  {
    var init, last := d[..|d| - 1], d[|d| - 1];
    if |last.1| > 1 {
      var m := Multiples(init);
      assert Multiples(d) == m + [last];
      FlattenConcat(m, [last]);
      assert Flatten([last]) == last.1 by { assert [last][..0] == []; }
    } else {
      assert Multiples(d) == Multiples(init);
    }
  }

  lemma KeyedSecondsSnoc(fs: Fs, cfg: Settings, env: Env, paths: seq<Path>)
    requires |paths| > 0
    ensures Seconds(KeyedItems(fs, cfg, env, paths))
      == Seconds(KeyedItems(fs, cfg, env, paths[..|paths| - 1]))
        + if KeyOf(fs, cfg, env, paths[|paths| - 1]).Some? then [paths[|paths| - 1]] else []
  {
    var init, last := paths[..|paths| - 1], paths[|paths| - 1];
    var items := KeyedItems(fs, cfg, env, paths);
    if KeyOf(fs, cfg, env, last).Some? {
      assert items == KeyedItems(fs, cfg, env, init) + [(KeyOf(fs, cfg, env, last).value, last)];
      assert items[..|items| - 1] == KeyedItems(fs, cfg, env, init);
    } else {
      assert items == KeyedItems(fs, cfg, env, init);
    }
  }

  /** Splitting `before + xs` when `before` splits and `xs` goes wholly to one side. */
  lemma SplitStep<X>(whole: multiset<X>, before: multiset<X>, xs: multiset<X>, left: multiset<X>, right: multiset<X>,
                     left': multiset<X>, right': multiset<X>, toLeft: bool)
    requires whole == before + xs && before == left + right
    requires toLeft ==> left' == left + xs && right' == right
    requires !toLeft ==> left' == left && right' == right + xs
    ensures whole == left' + right'
  {
  }

  lemma {:induction false} KeyedSplit(fs: Fs, cfg: Settings, env: Env, paths: seq<Path>)
    ensures multiset(paths) == multiset(Seconds(KeyedItems(fs, cfg, env, paths))) + multiset(Unkeyed(fs, cfg, env, paths))
  {
    if |paths| > 0 {
      var init, last := paths[..|paths| - 1], paths[|paths| - 1];
      MultisetSnoc(paths);
      KeyedSplit(fs, cfg, env, init);
      KeyedSecondsSnoc(fs, cfg, env, paths);
      SplitStep(multiset(paths), multiset(init), multiset{last},
                multiset(Seconds(KeyedItems(fs, cfg, env, init))), multiset(Unkeyed(fs, cfg, env, init)),
                multiset(Seconds(KeyedItems(fs, cfg, env, paths))), multiset(Unkeyed(fs, cfg, env, paths)),
                KeyOf(fs, cfg, env, last).Some?);
    }
  }

  /**
   * Each path of a bucket ends up exactly once either in one of the
   * bucket's hardlink sets or in what is left to hash.
   */
  lemma BucketPartition(fs: Fs, cfg: Settings, env: Env, paths: seq<Path>)
    ensures multiset(paths)
      == multiset(Flatten(Multiples(ById(fs, cfg, env, paths)))) + multiset(Residual(fs, cfg, env, paths))
  {
    KeyedSplit(fs, cfg, env, paths);
    GroupFlatten(KeyedItems(fs, cfg, env, paths));
    SinglesSplit(ById(fs, cfg, env, paths));
  }

  /**
   * The buckets passed on to hashing hold two or more paths each, and each
   * is exactly what was left of a bucket of the same size.
   */
  lemma {:induction false} ToCheckSound(fs: Fs, cfg: Settings, env: Env, groups: Dict<nat, seq<Path>>)
    ensures forall e :: e in Identify(fs, cfg, env, groups).toCheck ==>
      |e.1| >= 2 && exists b :: b in groups && b.0 == e.0 && e.1 == Residual(fs, cfg, env, b.1)
  {
    if |groups| > 0 {
      var init, last := groups[..|groups| - 1], groups[|groups| - 1];
      ToCheckSound(fs, cfg, env, init);
      assert last in groups;
      assert forall b :: b in init ==> b in groups;
      var residual := Residual(fs, cfg, env, last.1);
      PutMembers(Identify(fs, cfg, env, init).toCheck, last.0, residual);
    }
  }

  /**
   * For a dictionary of buckets (sizes distinct), the bucket of size `size`
   * is passed on exactly when two or more of its paths are left, and then
   * with exactly those paths.
   */
  lemma ToCheckGet(fs: Fs, cfg: Settings, env: Env, groups: Dict<nat, seq<Path>>, size: nat, paths: seq<Path>)
    requires DistinctKeys(groups)
    requires (size, paths) in groups
    ensures Get(Identify(fs, cfg, env, groups).toCheck, size) ==
      if |Residual(fs, cfg, env, paths)| > 1 then Some(Residual(fs, cfg, env, paths)) else None
  {
    var i :| 0 <= i < |groups| && groups[i] == (size, paths);
    ToCheckGetAt(fs, cfg, env, groups, i);
  }

  lemma {:induction false} ToCheckGetAt(fs: Fs, cfg: Settings, env: Env, groups: Dict<nat, seq<Path>>, i: nat)
    requires DistinctKeys(groups) && i < |groups|
    ensures var residual := Residual(fs, cfg, env, groups[i].1);
      Get(Identify(fs, cfg, env, groups).toCheck, groups[i].0) == if |residual| > 1 then Some(residual) else None
  {
    var n := |groups|;
    var size := groups[i].0;
    var init := groups[..n - 1];
    ToCheckLast(fs, cfg, env, groups, size);
    assert forall j :: 0 <= j < |init| ==> init[j] == groups[j];
    if i == n - 1 {
      ToCheckNone(fs, cfg, env, init, size);
    } else {
      assert groups[n - 1].0 != size;
      ToCheckGetAt(fs, cfg, env, init, i);
    }
  }

  /** What the last bucket does to the lookup of `size` among the buckets passed on. */
  lemma ToCheckLast(fs: Fs, cfg: Settings, env: Env, groups: Dict<nat, seq<Path>>, size: nat)
    requires |groups| > 0
    ensures var last := groups[|groups| - 1];
      var residual := Residual(fs, cfg, env, last.1);
      Get(Identify(fs, cfg, env, groups).toCheck, size) ==
        if last.0 == size && |residual| > 1 then Some(residual)
        else Get(Identify(fs, cfg, env, groups[..|groups| - 1]).toCheck, size)
  {
    var last := groups[|groups| - 1];
    IdentifyStep(fs, cfg, env, groups);
    PutGet(Identify(fs, cfg, env, groups[..|groups| - 1]).toCheck, last.0, Residual(fs, cfg, env, last.1), size);
  }

  /** A size no bucket has is never passed on. */
  lemma {:induction false} ToCheckNone(fs: Fs, cfg: Settings, env: Env, groups: Dict<nat, seq<Path>>, size: nat)
    requires forall i :: 0 <= i < |groups| ==> groups[i].0 != size
    ensures Get(Identify(fs, cfg, env, groups).toCheck, size).None?
  {
    if |groups| > 0 {
      var init := groups[..|groups| - 1];
      ToCheckLast(fs, cfg, env, groups, size);
      assert forall i :: 0 <= i < |init| ==> init[i] == groups[i];
      ToCheckNone(fs, cfg, env, init, size);
    }
  }

  // ----- the space shared by hardlinks -----

  lemma {:induction false} SharedSpaceExcess<K>(size: nat, d: Dict<K, seq<Path>>)
    ensures SharedSpace(size, d) == size * Excess(d)
  {
    if |d| > 0 {
      var init, last := d[..|d| - 1], d[|d| - 1];
      SharedSpaceExcess(size, init);
      var extra: nat := if |last.1| > 1 then |last.1| - 1 else 0;
      assert SharedSpace(size, d) == SharedSpace(size, init) + size * extra;
      assert Excess(d) == Excess(init) + extra;
      Distribute(size, Excess(init), extra);
    }
  }

  /** The extra names of a bucket: its identified paths minus its distinct identities. */
  ghost function ExtraNames(fs: Fs, cfg: Settings, env: Env, paths: seq<Path>): int
  {
    |KeyedItems(fs, cfg, env, paths)| - |KeySet(KeyedItems(fs, cfg, env, paths))|
  }

  /** `size` times the number of extra names. */
  lemma BucketSpace(fs: Fs, cfg: Settings, env: Env, size: nat, paths: seq<Path>)
    ensures SharedSpace(size, ById(fs, cfg, env, paths)) == size * ExtraNames(fs, cfg, env, paths)
  {
    var items := KeyedItems(fs, cfg, env, paths);
    SharedSpaceExcess(size, Group(items));
    GroupExcess(items);
  }

  /**
   * The reference figure for the shared space: for every bucket, its size
   * times the number of its identified paths that repeat an identity.
   */
  ghost function ExpectedSpace(fs: Fs, cfg: Settings, env: Env, groups: Dict<nat, seq<Path>>): int
  {
    if |groups| == 0 then 0
    else
      var last := groups[|groups| - 1];
      ExpectedSpace(fs, cfg, env, groups[..|groups| - 1]) + last.0 * ExtraNames(fs, cfg, env, last.1)
  }

  lemma {:induction false} SpaceCounted(fs: Fs, cfg: Settings, env: Env, groups: Dict<nat, seq<Path>>)
    ensures Identify(fs, cfg, env, groups).space == ExpectedSpace(fs, cfg, env, groups)
  {
    if |groups| > 0 {
      var init, last := groups[..|groups| - 1], groups[|groups| - 1];
      SpaceCounted(fs, cfg, env, init);
      IdentifyStep(fs, cfg, env, groups);
      BucketSpace(fs, cfg, env, last.0, last.1);
    }
  }
}
