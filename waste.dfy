/**
 * `calculate_wasted_space`: each duplicate set contributes the `lstat`
 * size of its first path times the number of extra copies, when that size
 * is at least the minimum size; a set whose first path cannot be
 * `lstat`-ed contributes nothing.
 */
module Waste {
  import opened Wrappers
  import opened Paths
  import opened FileSystem
  import opened Configuration
  import opened Dicts

  /** One set's contribution. */
  function SetWaste(fs: Fs, s: Settings, env: Env, files: seq<Path>): nat
  {
    if |files| == 0 then 0
    else match Lstat(fs, NormalizePath(files[0], s, env))
      case Stat(size) => if size >= s.minSize then size * (|files| - 1) else 0
      case _ => 0
  }

  /** The sum over the sets, in dictionary order. */
  function Wasted(fs: Fs, s: Settings, env: Env, duplicates: Dict<Digest, seq<Path>>): nat
  {
    if |duplicates| == 0 then 0
    else
      Wasted(fs, s, env, duplicates[..|duplicates| - 1])
        + SetWaste(fs, s, env, duplicates[|duplicates| - 1].1)
  }

  method CalculateWastedSpace(duplicates: Dict<Digest, seq<Path>>, s: Settings, fs: Fs, env: Env) returns (wasted: nat)
    ensures wasted == Wasted(fs, s, env, duplicates)
  {
    wasted := 0;
    var i := 0;
    while i < |duplicates|
      invariant 0 <= i <= |duplicates|
      invariant wasted == Wasted(fs, s, env, duplicates[..i])
    {
      WastedNext(fs, s, env, duplicates, i);
      var fileList := duplicates[i].1;
      if |fileList| > 0 {
        match Lstat(fs, NormalizePath(fileList[0], s, env)) {
          case Stat(fileSize) =>
            if fileSize >= s.minSize {
              var extra := fileSize * (|fileList| - 1);
              assert extra == SetWaste(fs, s, env, fileList);
              wasted := wasted + extra;
            }
          case _ =>
        }
      }
      i := i + 1;
    }
    assert duplicates[..|duplicates|] == duplicates;
  }

  /** The loop's step: one more set adds its own contribution. */
  lemma WastedNext(fs: Fs, s: Settings, env: Env, duplicates: Dict<Digest, seq<Path>>, i: nat)
    requires i < |duplicates|
    ensures Wasted(fs, s, env, duplicates[..i + 1]) == Wasted(fs, s, env, duplicates[..i]) + SetWaste(fs, s, env, duplicates[i].1)
  {
    assert duplicates[..i + 1][..i] == duplicates[..i];
  }

  /** The waste of two dictionaries laid end to end is the sum of their wastes. */
  lemma {:induction false} WastedConcat(fs: Fs, s: Settings, env: Env, a: Dict<Digest, seq<Path>>, b: Dict<Digest, seq<Path>>)
    ensures Wasted(fs, s, env, a + b) == Wasted(fs, s, env, a) + Wasted(fs, s, env, b)
  {
    if |b| == 0 {
      assert a + b == a;
    } else {
      WastedConcat(fs, s, env, a, b[..|b| - 1]);
      assert (a + b)[..|a + b| - 1] == a + b[..|b| - 1];
    }
  }

  /** Sets of fewer than two paths waste nothing, so dropping them changes nothing. */
  lemma {:induction false} WastedMultiples(fs: Fs, s: Settings, env: Env, d: Dict<Digest, seq<Path>>)
    ensures Wasted(fs, s, env, Multiples(d)) == Wasted(fs, s, env, d)
  {
    if |d| > 0 {
      var init, last := d[..|d| - 1], d[|d| - 1];
      WastedMultiples(fs, s, env, init);
      if |last.1| > 1 {
        var m := Multiples(init);
        assert (m + [last])[..|m|] == m;
      } else {
        assert Multiples(d) == Multiples(init);
        SingleSetWaste(fs, s, env, last.1);
      }
    }
  }

  /** A set of fewer than two paths has no extra copy to waste space on. */
  lemma SingleSetWaste(fs: Fs, s: Settings, env: Env, files: seq<Path>)
    requires |files| < 2
    ensures SetWaste(fs, s, env, files) == 0
  {
    if |files| == 1 {
      match Lstat(fs, NormalizePath(files[0], s, env))
      case Stat(size) => assert size * 0 == 0;
      case _ =>
    }
  }

  /**
   * A set all of whose paths `lstat` to one size `size >= min_size`
   * contributes `size` for every path but one.
   */
  predicate Uniform(fs: Fs, s: Settings, env: Env, files: seq<Path>, size: nat)
  {
    size >= s.minSize && forall p :: p in files ==> Lstat(fs, NormalizePath(p, s, env)) == Stat(size)
  }

  lemma UniformSetWaste(fs: Fs, s: Settings, env: Env, files: seq<Path>, size: nat)
    requires |files| > 0 && Uniform(fs, s, env, files, size)
    ensures SetWaste(fs, s, env, files) == size * (|files| - 1)
  {
    assert files[0] in files;
  }
}
