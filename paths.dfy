/**
 * The path-string helpers the executor relies on, following the POSIX rules
 * of Python's `os.path` (`join`, `basename`, `splitext`), and the decimal
 * rendering used for the quarantine timestamp.
 */
module Paths {

  type Path = string

  predicate StartsWith(s: string, prefix: string) {
    |prefix| <= |s| && s[..|prefix|] == prefix
  }

  /** `os.path.join(a, b)`: an absolute `b` wins, otherwise one '/' separates them. */
  function Join(a: Path, b: Path): Path {
    if |b| > 0 && b[0] == '/' then b
    else if |a| == 0 || a[|a| - 1] == '/' then a + b
    else a + "/" + b
  }

  /** The directory part `Join` puts in front of a relative name. */
  function JoinPrefix(a: Path): Path {
    if |a| == 0 || a[|a| - 1] == '/' then a else a + "/"
  }

  /** Index just after the last '/', or 0 when there is none. */
  function NameStart(p: Path): (i: nat)
    ensures i <= |p|
    ensures forall j :: i <= j < |p| ==> p[j] != '/'
    ensures i == 0 || p[i - 1] == '/'
  {
    if |p| == 0 then 0
    else if p[|p| - 1] == '/' then |p|
    else NameStart(p[..|p| - 1])
  }

  /** `os.path.basename(p)`: what follows the last '/'. */
  function Basename(p: Path): (name: Path)
    ensures '/' !in name
    ensures |name| <= |p| && p == p[..|p| - |name|] + name
  {
    var i := NameStart(p);
    assert forall c :: c in p[i..] ==> c != '/';
    p[i..]
  }

  /** `p` without its trailing '/'s (`p.rstrip('/')`). */
  function TrimSlashes(p: Path): (r: Path)
    ensures StartsWith(p, r)
    ensures |r| == 0 || r[|r| - 1] != '/'
  {
    if |p| > 0 && p[|p| - 1] == '/' then
      var r := TrimSlashes(p[..|p| - 1]);
      assert p[..|p| - 1][..|r|] == p[..|r|];
      r
    else p
  }

  predicate AllSlashes(s: string) {
    forall i :: 0 <= i < |s| ==> s[i] == '/'
  }

  /** `p` with its trailing '/'s dropped unless it is nothing but '/'s: the directory the kernel finds for `p`. */
  function Unslashed(p: Path): (r: Path)
    ensures StartsWith(p, r)
  {
    if AllSlashes(p) then p else TrimSlashes(p)
  }

  /** `os.path.split(p)`: the part before the name, as `Unslashed` spells it, and the name after the last '/'. */
  function Split(p: Path): (r: (Path, Path))
    ensures StartsWith(p, r.0) && |r.0| + |r.1| <= |p|
    ensures '/' !in r.1
  {
    var i := NameStart(p);
    var head := Unslashed(p[..i]);
    assert p[..i][..|head|] == p[..|head|];
    assert forall c :: c in p[i..] ==> c != '/';
    (head, p[i..])
  }

  /** `os.path.dirname(p)`. */
  function Dirname(p: Path): Path {
    Split(p).0
  }

  /** After a '/', a name without '/' starts exactly there. */
  lemma {:induction false} NameStartAfter(p: Path, n: Path)
    requires |p| > 0 && p[|p| - 1] == '/' && '/' !in n
    ensures NameStart(p + n) == |p|
  {
    if |n| == 0 {
      assert p + n == p;
    } else {
      assert (p + n)[..|p + n| - 1] == p + n[..|n| - 1];
      assert (p + n)[|p + n| - 1] == n[|n| - 1];
      assert forall c :: c in n[..|n| - 1] ==> c in n;
      NameStartAfter(p, n[..|n| - 1]);
    }
  }

  /** The directory of a name joined to a directory that does not end in '/' is that directory. */
  lemma DirnameJoin(q: Path, n: Path)
    requires |q| > 0 && q[|q| - 1] != '/' && '/' !in n
    ensures Dirname(Join(q, n)) == q
  {
    assert |n| == 0 || n[0] != '/' by {
      if |n| > 0 { assert n[0] in n; }
    }
    var d := q + "/";
    assert Join(q, n) == d + n;
    NameStartAfter(d, n);
    assert (d + n)[..|d|] == d;
    assert !AllSlashes(d) by {
      assert d[|q| - 1] == q[|q| - 1];
    }
    assert d[..|d| - 1] == q;
    assert TrimSlashes(d) == TrimSlashes(q) == q;
    assert Unslashed(d) == q;
    assert Split(d + n).0 == Unslashed((d + n)[..|d|]);
  }

  /** A prefix of a prefix is a prefix. */
  lemma StartsWithTrans(a: string, b: string, c: string)
    requires StartsWith(a, b) && StartsWith(b, c)
    ensures StartsWith(a, c)
  {
    assert a[..|b|][..|c|] == a[..|c|];
  }

  predicate AllDots(s: string) {
    forall i :: 0 <= i < |s| ==> s[i] == '.'
  }

  /** Index of the last '.' in `s`, if any. */
  function LastDot(s: string): (r: int)
    ensures -1 <= r < |s|
    ensures r >= 0 ==> s[r] == '.'
    ensures forall j :: r < j < |s| ==> s[j] != '.'
  {
    if |s| == 0 then -1
    else if s[|s| - 1] == '.' then |s| - 1
    else LastDot(s[..|s| - 1])
  }

  /**
   * `os.path.splitext(name)` for a name without '/': the extension starts at
   * the last '.', unless only dots precede it (so `.bashrc` has none).
   */
  function SplitExt(name: Path): (Path, Path)
  {
    var dot := LastDot(name);
    if dot < 0 || AllDots(name[..dot]) then (name, "")
    else (name[..dot], name[dot..])
  }

  /** Decimal digits of `n`, as an f-string renders an int. */
  function NatToString(n: nat): (s: string)
    ensures |s| > 0
    ensures forall c :: c in s ==> '0' <= c <= '9'
  {
    var d := ['0' + (n % 10) as char];
    if n < 10 then d else NatToString(n / 10) + d
  }

  /** The timestamped name `f"{base}_{timestamp}{ext}"` tried on a quarantine clash. */
  function StampedName(name: Path, stamp: nat): Path
  {
    var (base, ext) := SplitExt(name);
    base + "_" + NatToString(stamp) + ext
  }

  lemma SplitExtParts(name: Path)
    ensures SplitExt(name).0 + SplitExt(name).1 == name
    ensures SplitExt(name).1 == "" || SplitExt(name).1[0] == '.'
  {
    var dot := LastDot(name);
    if !(dot < 0 || AllDots(name[..dot])) {
      assert name[..dot] + name[dot..] == name;
    }
  }

  /** Joining a name that does not start with '/' puts it after the directory prefix. */
  lemma JoinRelative(a: Path, b: Path)
    requires |b| == 0 || b[0] != '/'
    ensures Join(a, b) == JoinPrefix(a) + b
  {
  }

  /**
   * The stamped name never equals the plain name: it is one '_' and at
   * least one digit longer, so the two destinations in the quarantine
   * directory are different paths.
   */
  lemma {:induction false} StampedDiffers(dir: Path, name: Path, stamp: nat)
    requires '/' !in name
    ensures Join(dir, StampedName(name, stamp)) != Join(dir, name)
    ensures '/' !in StampedName(name, stamp)
    ensures |StampedName(name, stamp)| > |name|
  {
    SplitExtParts(name);
    var (base, ext) := SplitExt(name);
    var digits := NatToString(stamp);
    var s := StampedName(name, stamp);
    assert s == base + "_" + digits + ext;
    assert |s| == |name| + 1 + |digits|;
    assert forall c :: c in base ==> c in name by {
      assert name == base + ext;
      forall c | c in base ensures c in name {
        var i :| 0 <= i < |base| && base[i] == c;
        assert name[i] == c;
      }
    }
    assert forall c :: c in ext ==> c in name by {
      assert name == base + ext;
      forall c | c in ext ensures c in name {
        var i :| 0 <= i < |ext| && ext[i] == c;
        assert name[|base| + i] == c;
      }
    }
    assert forall c :: c in s ==> c in base || c == '_' || c in digits || c in ext;
    assert |name| == 0 || name[0] != '/' by {
      if |name| > 0 { assert name[0] in name; }
    }
    assert |s| > 0 && s[0] != '/' by {
      assert s[0] in s;
    }
    JoinRelative(dir, name);
    JoinRelative(dir, s);
  }
}
