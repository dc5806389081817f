/**
 * `select_file_to_keep`: which path of a duplicate set survives.  `first`
 * and any unknown strategy keep the first path; `shortest`/`longest` sort
 * by path length and `oldest`/`newest` by modification time, with Python's
 * stable `sorted` (ties keep their order, also when reversed); a failing
 * `getmtime` falls back to keeping the first path.  Like `sorted` with a
 * `key`, the sort computes every key first and orders `(key, path)` pairs.
 */
module Keep {
  import opened Wrappers
  import opened Paths
  import opened FileSystem
  import opened Configuration
  import opened Dicts

  /** A path with its sort key. */
  type Keyed = (int, Path)

  /** Whether key `a` sorts strictly before key `b`. */
  predicate Precedes(a: int, b: int, descending: bool)
  {
    if descending then a > b else a < b
  }

  /** No pair is strictly preceded by a later one. */
  ghost predicate SortedBy(xs: seq<Keyed>, descending: bool)
  {
    forall i, j :: 0 <= i < j < |xs| ==> !Precedes(xs[j].0, xs[i].0, descending)
  }

  /** Inserts `x` after every pair whose key `x` does not strictly precede. */
  function InsertBy(x: Keyed, sorted: seq<Keyed>, descending: bool): (r: seq<Keyed>)
    ensures |r| == |sorted| + 1
  {
    if |sorted| == 0 then [x]
    else if Precedes(x.0, sorted[0].0, descending) then [x] + sorted
    else [sorted[0]] + InsertBy(x, sorted[1..], descending)
  }

  /** The pairs after insertion are `x` and the pairs before. */
  lemma {:induction false} InsertMembers(x: Keyed, sorted: seq<Keyed>, descending: bool, y: Keyed)
    ensures y in InsertBy(x, sorted, descending) <==> y == x || y in sorted
  {
    if |sorted| > 0 && !Precedes(x.0, sorted[0].0, descending) {
      InsertMembers(x, sorted[1..], descending, y);
      assert sorted == [sorted[0]] + sorted[1..];
    }
  }

  /**
   * `sorted(..., reverse=descending)`: insertion in input order, so pairs
   * with equal keys keep their input order.
   */
  function SortBy(xs: seq<Keyed>, descending: bool): (r: seq<Keyed>)
    ensures |r| == |xs|
  {
    if |xs| == 0 then []
    else InsertBy(xs[|xs| - 1], SortBy(xs[..|xs| - 1], descending), descending)
  }

  /** Key `c` not beating `b`, which `a` beats, does not beat `a` either. */
  lemma PrecedesChain(a: int, b: int, c: int, descending: bool)
    requires Precedes(a, b, descending) && !Precedes(c, b, descending)
    ensures !Precedes(c, a, descending)
  {
  }

  /** The tail of a sorted list is sorted. */
  lemma SortedTail(sorted: seq<Keyed>, descending: bool)
    requires |sorted| > 0 && SortedBy(sorted, descending)
    ensures SortedBy(sorted[1..], descending)
  {
    var rest := sorted[1..];
    forall i, j | 0 <= i < j < |rest| ensures !Precedes(rest[j].0, rest[i].0, descending) {
      assert rest[i] == sorted[i + 1] && rest[j] == sorted[j + 1];
    }
  }

  /** Putting in front a pair that no pair of a sorted list beats keeps it sorted. */
  lemma SortedCons(x: Keyed, sorted: seq<Keyed>, descending: bool)
    requires SortedBy(sorted, descending)
    requires forall y :: y in sorted ==> !Precedes(y.0, x.0, descending)
    ensures SortedBy([x] + sorted, descending)
  {
    var r := [x] + sorted;
    forall i, j | 0 <= i < j < |r| ensures !Precedes(r[j].0, r[i].0, descending) {
      assert r[j] == sorted[j - 1];
      if i > 0 {
        assert r[i] == sorted[i - 1];
      } else {
        assert sorted[j - 1] in sorted;
      }
    }
  }

  /** Insertion keeps a sorted list sorted. */
  lemma {:induction false} InsertSorted(x: Keyed, sorted: seq<Keyed>, descending: bool)
    requires SortedBy(sorted, descending)
    ensures SortedBy(InsertBy(x, sorted, descending), descending)
  {
    if |sorted| > 0 {
      var head := sorted[0];
      var rest := sorted[1..];
      assert sorted == [head] + rest;
      if Precedes(x.0, head.0, descending) {
        forall y | y in sorted ensures !Precedes(y.0, x.0, descending) {
          var m :| 0 <= m < |sorted| && sorted[m] == y;
          if m > 0 {
            PrecedesChain(x.0, head.0, y.0, descending);
          }
        }
        SortedCons(x, sorted, descending);
      } else {
        SortedTail(sorted, descending);
        InsertSorted(x, rest, descending);
        var rest' := InsertBy(x, rest, descending);
        forall y | y in rest' ensures !Precedes(y.0, head.0, descending) {
          InsertMembers(x, rest, descending, y);
          if y != x {
            var m :| 0 <= m < |rest| && rest[m] == y;
            assert sorted[m + 1] == y;
          }
        }
        SortedCons(head, rest', descending);
      }
    }
  }

  /** The sort's result is sorted. */
  lemma {:induction false} SortSorted(xs: seq<Keyed>, descending: bool)
    ensures SortedBy(SortBy(xs, descending), descending)
  {
    if |xs| > 0 {
      SortSorted(xs[..|xs| - 1], descending);
      InsertSorted(xs[|xs| - 1], SortBy(xs[..|xs| - 1], descending), descending);
    }
  }

  /** The index of the first pair with the best key: none is better, every earlier one is worse. */
  function FirstBest(xs: seq<Keyed>, descending: bool): (k: nat)
    requires |xs| > 0
    ensures k < |xs|
    ensures forall j :: 0 <= j < |xs| ==> !Precedes(xs[j].0, xs[k].0, descending)
    ensures forall j :: 0 <= j < k ==> Precedes(xs[k].0, xs[j].0, descending)
  {
    if |xs| == 1 then 0
    else
      var b := FirstBest(xs[..|xs| - 1], descending);
      if Precedes(xs[|xs| - 1].0, xs[b].0, descending) then |xs| - 1 else b
  }

  /** A stable sort puts the first best pair in front. */
  lemma {:induction false} SortHead(xs: seq<Keyed>, descending: bool)
    requires |xs| > 0
    ensures SortBy(xs, descending)[0] == xs[FirstBest(xs, descending)]
  {
    if |xs| > 1 {
      SortHead(xs[..|xs| - 1], descending);
    }
  }

  // ----- keys and the selection -----

  /** Whether the strategy sorts: `shortest`, `longest`, `oldest` and `newest` do; `first` and unknown names do not. */
  predicate HasKey(strategy: KeepStrategy)
  {
    strategy.Shortest? || strategy.Longest? || strategy.Oldest? || strategy.Newest?
  }

  /** Whether the sort is reversed (`reverse=True`). */
  predicate Descending(strategy: KeepStrategy)
  {
    strategy.Longest? || strategy.Newest?
  }

  /** The strategy's sort key of `p`: its length, or its mtime, which is `None` where `getmtime` raises. */
  function StrategyKey(fs: Fs, s: Settings, env: Env, strategy: KeepStrategy, p: Path): Option<int>
  {
    if strategy.Shortest? || strategy.Longest? then Some(|p|)
    else if strategy.Oldest? || strategy.Newest? then Mtime(fs, NormalizePath(p, s, env))
    else None
  }

  /** Every key can be computed, so `sorted` does not raise. */
  predicate AllKeyed(fs: Fs, s: Settings, env: Env, strategy: KeepStrategy, paths: seq<Path>)
  {
    forall p :: p in paths ==> StrategyKey(fs, s, env, strategy, p).Some?
  }

  /** The pairs `(key(p), p)` in list order (a key that cannot be computed is never used). */
  function Decorate(fs: Fs, s: Settings, env: Env, strategy: KeepStrategy, paths: seq<Path>): (r: seq<Keyed>)
    ensures |r| == |paths|
    ensures forall i :: 0 <= i < |paths| ==> r[i] == (StrategyKey(fs, s, env, strategy, paths[i]).GetOr(0), paths[i])
  {
    if |paths| == 0 then []
    else
      var p := paths[|paths| - 1];
      Decorate(fs, s, env, strategy, paths[..|paths| - 1]) + [(StrategyKey(fs, s, env, strategy, p).GetOr(0), p)]
  }

  /** The paths of a list of pairs. */
  function Names(xs: seq<Keyed>): (r: seq<Path>)
    ensures |r| == |xs|
  {
    if |xs| == 0 then [] else [xs[0].1] + Names(xs[1..])
  }

  /** Position `i` of the paths is the path of pair `i`. */
  lemma {:induction false} NamesAt(xs: seq<Keyed>, i: nat)
    requires i < |xs|
    ensures Names(xs)[i] == xs[i].1
  {
    if i > 0 {
      NamesAt(xs[1..], i - 1);
    }
  }

  lemma NamesCons(x: Keyed, xs: seq<Keyed>)
    ensures Names([x] + xs) == [x.1] + Names(xs)
  {
    assert ([x] + xs)[1..] == xs;
  }

  lemma {:induction false} NamesSnoc(xs: seq<Keyed>)
    requires |xs| > 0
    ensures Names(xs) == Names(xs[..|xs| - 1]) + [xs[|xs| - 1].1]
  {
    if |xs| > 1 {
      var tail := xs[1..];
      NamesSnoc(tail);
      assert tail[..|tail| - 1] == xs[..|xs| - 1][1..];
      assert tail[|tail| - 1] == xs[|xs| - 1];
      assert Names(xs[..|xs| - 1]) == [xs[0].1] + Names(xs[..|xs| - 1][1..]);
    }
  }

  lemma NamesDecorate(fs: Fs, s: Settings, env: Env, strategy: KeepStrategy, paths: seq<Path>)
    ensures Names(Decorate(fs, s, env, strategy, paths)) == paths
  {
    var pairs := Decorate(fs, s, env, strategy, paths);
    forall i | 0 <= i < |paths| ensures Names(pairs)[i] == paths[i] {
      NamesAt(pairs, i);
    }
  }

  /** Inserting a pair adds its path to the paths. */
  lemma {:induction false} InsertNames(x: Keyed, sorted: seq<Keyed>, descending: bool)
    ensures multiset(Names(InsertBy(x, sorted, descending))) == multiset(Names(sorted)) + multiset{x.1}
  {
    if |sorted| == 0 {
      assert Names([x]) == [x.1];
    } else if Precedes(x.0, sorted[0].0, descending) {
      NamesCons(x, sorted);
    } else {
      InsertNames(x, sorted[1..], descending);
      InsertNamesStep(x, sorted, descending);
    }
  }

  /** The step of `InsertNames` past a head that stays in front. */
  lemma InsertNamesStep(x: Keyed, sorted: seq<Keyed>, descending: bool)
    requires |sorted| > 0 && !Precedes(x.0, sorted[0].0, descending)
    requires multiset(Names(InsertBy(x, sorted[1..], descending))) == multiset(Names(sorted[1..])) + multiset{x.1}
    ensures multiset(Names(InsertBy(x, sorted, descending))) == multiset(Names(sorted)) + multiset{x.1}
  {
    var r := InsertBy(x, sorted, descending);
    assert r[0] == sorted[0] && r[1..] == InsertBy(x, sorted[1..], descending);
    NamesHead(r);
    NamesHead(sorted);
  }

  /** The paths of a non-empty list: the first pair's and the rest's. */
  lemma NamesHead(xs: seq<Keyed>)
    requires |xs| > 0
    ensures multiset(Names(xs)) == multiset{xs[0].1} + multiset(Names(xs[1..]))
  {
    assert Names(xs) == [xs[0].1] + Names(xs[1..]);
  }

  /** Sorting pairs permutes their paths. */
  lemma {:induction false} SortNames(xs: seq<Keyed>, descending: bool)
    ensures multiset(Names(SortBy(xs, descending))) == multiset(Names(xs))
  {
    if |xs| > 0 {
      var init := xs[..|xs| - 1];
      SortNames(init, descending);
      InsertNames(xs[|xs| - 1], SortBy(init, descending), descending);
      NamesSnoc(xs);
    }
  }

  /** The list `select_file_to_keep` splits: sorted when the strategy has a key that can be computed, else as given. */
  function Ordered(fs: Fs, s: Settings, env: Env, fileList: seq<Path>, strategy: KeepStrategy): (r: seq<Path>)
    ensures multiset(r) == multiset(fileList)
  {
    if HasKey(strategy) && AllKeyed(fs, s, env, strategy, fileList) then
      var pairs := Decorate(fs, s, env, strategy, fileList);
      SortNames(pairs, Descending(strategy));
      NamesDecorate(fs, s, env, strategy, fileList);
      Names(SortBy(pairs, Descending(strategy)))
    else fileList
  }

  /** `(keep_file, process_list)`. */
  function SelectFileToKeep(fs: Fs, s: Settings, env: Env, fileList: seq<Path>, strategy: KeepStrategy): (Path, seq<Path>)
  {
    if |fileList| == 0 then ("", [])
    else
      var ordered := Ordered(fs, s, env, fileList, strategy);
      assert |ordered| == |multiset(fileList)|;
      (ordered[0], ordered[1..])
  }

  // ----- what the selection promises -----

  /**
   * The kept path and the paths to process are the set itself, each path
   * as often as it occurs; so there is one path fewer to process. An empty
   * list gives `("", [])`.
   */
  lemma KeepPartition(fs: Fs, s: Settings, env: Env, fileList: seq<Path>, strategy: KeepStrategy)
    ensures |fileList| == 0 ==> SelectFileToKeep(fs, s, env, fileList, strategy) == ("", [])
    ensures |fileList| > 0 ==> var (keep, process) := SelectFileToKeep(fs, s, env, fileList, strategy);
      multiset([keep] + process) == multiset(fileList) && |process| == |fileList| - 1
  {
    if |fileList| > 0 {
      var ordered := Ordered(fs, s, env, fileList, strategy);
      assert |ordered| == |multiset(fileList)| == |fileList|;
      assert ordered == [ordered[0]] + ordered[1..];
    }
  }

  /** In a set without repeated paths the kept path is never processed. */
  lemma KeepNotProcessed(fs: Fs, s: Settings, env: Env, fileList: seq<Path>, strategy: KeepStrategy)
    requires |fileList| > 0 && NoDuplicates(fileList)
    ensures var (keep, process) := SelectFileToKeep(fs, s, env, fileList, strategy);
      keep in fileList && keep !in process
  {
    var (keep, process) := SelectFileToKeep(fs, s, env, fileList, strategy);
    KeepPartition(fs, s, env, fileList, strategy);
    NoDuplicatesCount(fileList);
    assert multiset([keep] + process)[keep] == 1 + multiset(process)[keep];
  }

  /** `first` and unknown strategies keep the first path and process the rest in order. */
  lemma KeepFirstPath(fs: Fs, s: Settings, env: Env, fileList: seq<Path>, strategy: KeepStrategy)
    requires |fileList| > 0
    requires strategy.KeepFirst? || strategy.OtherStrategy?
    ensures SelectFileToKeep(fs, s, env, fileList, strategy) == (fileList[0], fileList[1..])
  {
  }

  /**
   * With a key every path has, the kept path is the first one of the set
   * whose key no other path beats.
   */
  lemma KeepBest(fs: Fs, s: Settings, env: Env, fileList: seq<Path>, strategy: KeepStrategy)
    requires |fileList| > 0
    requires HasKey(strategy) && AllKeyed(fs, s, env, strategy, fileList)
    ensures var keep := SelectFileToKeep(fs, s, env, fileList, strategy).0;
      exists k :: 0 <= k < |fileList| && fileList[k] == keep &&
        (forall j :: 0 <= j < |fileList| ==>
          !Precedes(StrategyKey(fs, s, env, strategy, fileList[j]).value, StrategyKey(fs, s, env, strategy, keep).value, Descending(strategy))) &&
        (forall j :: 0 <= j < k ==>
          Precedes(StrategyKey(fs, s, env, strategy, keep).value, StrategyKey(fs, s, env, strategy, fileList[j]).value, Descending(strategy)))
  {
    var descending := Descending(strategy);
    var pairs := Decorate(fs, s, env, strategy, fileList);
    assert Ordered(fs, s, env, fileList, strategy) == Names(SortBy(pairs, descending));
    SortHead(pairs, descending);
    var k := FirstBest(pairs, descending);
    var keep := SelectFileToKeep(fs, s, env, fileList, strategy).0;
    assert keep == fileList[k];
    forall j | 0 <= j < |fileList| ensures pairs[j].0 == StrategyKey(fs, s, env, strategy, fileList[j]).value {
      assert fileList[j] in fileList;
    }
  }

  /** `shortest` keeps a path of least length, the first such. */
  lemma KeepShortest(fs: Fs, s: Settings, env: Env, fileList: seq<Path>)
    requires |fileList| > 0
    ensures var keep := SelectFileToKeep(fs, s, env, fileList, Shortest).0;
      exists k :: 0 <= k < |fileList| && fileList[k] == keep &&
        (forall j :: 0 <= j < |fileList| ==> |keep| <= |fileList[j]|) &&
        (forall j :: 0 <= j < k ==> |keep| < |fileList[j]|)
  {
    KeepBest(fs, s, env, fileList, Shortest);
  }

  /** `longest` keeps a path of greatest length, the first such. */
  lemma KeepLongest(fs: Fs, s: Settings, env: Env, fileList: seq<Path>)
    requires |fileList| > 0
    ensures var keep := SelectFileToKeep(fs, s, env, fileList, Longest).0;
      exists k :: 0 <= k < |fileList| && fileList[k] == keep &&
        (forall j :: 0 <= j < |fileList| ==> |keep| >= |fileList[j]|) &&
        (forall j :: 0 <= j < k ==> |keep| > |fileList[j]|)
  {
    KeepBest(fs, s, env, fileList, Longest);
  }

  /** `oldest` (`newest` when `newest` holds) keeps a path of least (greatest) mtime, the first such. */
  lemma KeepByAge(fs: Fs, s: Settings, env: Env, fileList: seq<Path>, newest: bool)
    requires |fileList| > 0
    requires forall p :: p in fileList ==> Mtime(fs, NormalizePath(p, s, env)).Some?
    ensures var keep := SelectFileToKeep(fs, s, env, fileList, if newest then Newest else Oldest).0;
      exists k :: 0 <= k < |fileList| && fileList[k] == keep &&
        (forall j :: 0 <= j < |fileList| ==>
          !Precedes(Mtime(fs, NormalizePath(fileList[j], s, env)).value, Mtime(fs, NormalizePath(keep, s, env)).value, newest)) &&
        (forall j :: 0 <= j < k ==>
          Precedes(Mtime(fs, NormalizePath(keep, s, env)).value, Mtime(fs, NormalizePath(fileList[j], s, env)).value, newest))
  {
    var strategy := if newest then Newest else Oldest;
    assert Descending(strategy) == newest;
    assert forall p :: StrategyKey(fs, s, env, strategy, p) == Mtime(fs, NormalizePath(p, s, env));
    KeepBest(fs, s, env, fileList, strategy);
  }

  /** When some modification time cannot be read, `oldest`/`newest` fall back to the first path. */
  lemma KeepByAgeFallback(fs: Fs, s: Settings, env: Env, fileList: seq<Path>, strategy: KeepStrategy)
    requires |fileList| > 0 && (strategy.Oldest? || strategy.Newest?)
    requires exists p :: p in fileList && Mtime(fs, NormalizePath(p, s, env)).None?
    ensures SelectFileToKeep(fs, s, env, fileList, strategy) == (fileList[0], fileList[1..])
  {
  }
}
