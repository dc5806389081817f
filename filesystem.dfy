/**
 * The filesystem the pipeline observes and changes, as a value: a map from
 * path string to directory entry.  The queries are the `os` calls the source
 * makes (`lstat`, `isfile`, `exists`, `stat`-based identity and mtime, `open`
 * for reading) and the effects are the calls that change it (`remove`,
 * `shutil.move`, `link`, `makedirs`), each returning `None` (for
 * `makedirs`, the kind of error) where the call raises.
 */
module FileSystem {
  import opened Wrappers
  import opened Paths

  newtype byte = x: int | 0 <= x < 256

  /** The identity key: `(st_dev, st_ino)` on POSIX, the NTFS file index on Windows. */
  datatype FileKey = FileKey(device: int, index: int)

  datatype Kind = Regular | Directory | Symlink(target: Path) | Special

  /**
   * One directory entry.  `size` is what `lstat` reports (for a symbolic link
   * the length of its target, not of the file it names); `key` is what the
   * platform's identity lookup returns for it; `statable` is false when
   * metadata cannot be read (a permission error); `readable` is false when
   * the file cannot be opened for reading; `locked` is true when the OS
   * refuses to unlink or rename it.
   */
  datatype Entry = Entry(
    kind: Kind,
    size: nat,
    content: seq<byte>,
    key: Option<FileKey>,
    mtime: int,
    statable: bool,
    readable: bool,
    locked: bool)

  type Fs = map<Path, Entry>

  /** The number of symbolic links the kernel follows before giving up (Linux MAXSYMLINKS). */
  const MaxSymlinkHops: nat := 40

  /** The entry makedirs creates. */
  const NewDirectory: Entry := Entry(Directory, 0, [], None, 0, true, true, false)

  /** Follows symbolic links from `p`, at most `hops` of them, to an existing non-link entry. */
  function Follow(fs: Fs, p: Path, hops: nat): (r: Option<Path>)
    ensures r.Some? ==> r.value in fs && !fs[r.value].kind.Symlink?
    ensures p in fs && !fs[p].kind.Symlink? ==> r == Some(p)
    decreases hops
  {
    if p !in fs then None
    else match fs[p].kind
      case Symlink(target) => if hops == 0 then None else Follow(fs, target, hops - 1)
      case _ => Some(p)
  }

  /** What a path names once links are followed; `None` for a missing, dangling or looping path. */
  function Resolve(fs: Fs, p: Path): Option<Path>
  {
    Follow(fs, p, MaxSymlinkHops)
  }

  /** The resolved entry, when its metadata can be read (`os.stat` succeeds). */
  function StatTarget(fs: Fs, p: Path): (r: Option<Path>)
    ensures r.Some? ==> r.value in fs && fs[r.value].statable && !fs[r.value].kind.Symlink?
  {
    match Resolve(fs, p)
    case Some(q) => if fs[q].statable then Some(q) else None
    case None => None
  }

  datatype StatResult = NotFound | StatFailed | Stat(size: nat)

  /** `os.lstat(p).st_size`: the entry itself, links not followed; `NotFound` is FileNotFoundError. */
  function Lstat(fs: Fs, p: Path): StatResult
  {
    if p !in fs then NotFound
    else if !fs[p].statable then StatFailed
    else Stat(fs[p].size)
  }

  /** `os.path.isfile(p)`: follows links, false on any error. */
  predicate IsFile(fs: Fs, p: Path)
  {
    var q := StatTarget(fs, p);
    q.Some? && fs[q.value].kind == Regular
  }

  /** `os.path.exists(p)`: follows links, false on any error (so a dangling link does not exist). */
  predicate Exists(fs: Fs, p: Path)
  {
    StatTarget(fs, p).Some?
  }

  /** `os.path.isdir(p)`. */
  predicate IsDir(fs: Fs, p: Path)
  {
    var q := StatTarget(fs, p);
    q.Some? && fs[q.value].kind == Directory
  }

  /** The identity key of the file `p` names (`os.stat` follows links); `None` when the lookup fails. */
  function FileKeyOf(fs: Fs, p: Path): Option<FileKey>
  {
    match StatTarget(fs, p)
    case Some(q) => fs[q].key
    case None => None
  }

  /** `os.path.getmtime(p)`; `None` where it raises. */
  function Mtime(fs: Fs, p: Path): Option<int>
  {
    match StatTarget(fs, p)
    case Some(q) => Some(fs[q].mtime)
    case None => None
  }

  /** The bytes `open(p, "rb").read()` yields; `None` where opening raises. */
  function ReadContent(fs: Fs, p: Path): Option<seq<byte>>
  {
    match Resolve(fs, p)
    case Some(q) => if fs[q].kind == Regular && fs[q].readable then Some(fs[q].content) else None
    case None => None
  }

  // ----- effects -----

  /** `os.remove(p)`: unlinks the entry itself (a link, not its target); directories are refused. */
  function RemoveFile(fs: Fs, p: Path): (r: Option<Fs>)
    ensures r.Some? ==> p in fs && r.value == fs - {p}
  {
    if p !in fs || fs[p].kind == Directory || fs[p].locked then None
    else Some(fs - {p})
  }

  /** Whether `d` names a directory; `""` is the working directory. */
  predicate DirectoryAt(fs: Fs, d: Path)
  {
    |d| == 0 || IsDir(fs, d)
  }

  /** `os.path.samefile(a, b)`: both `stat` to the same entry; false where either fails. */
  predicate SameFile(fs: Fs, a: Path, b: Path)
  {
    StatTarget(fs, a).Some? && StatTarget(fs, a) == StatTarget(fs, b)
  }

  /** Where `shutil.move(src, dst)` puts `src`: inside `dst` when that is a directory other than `src` itself. */
  function MoveTarget(fs: Fs, src: Path, dst: Path): Path
  {
    if IsDir(fs, dst) && !SameFile(fs, src, dst) then Join(dst, Basename(TrimSlashes(src))) else dst
  }

  /**
   * `shutil.move(src, dst)`.  Into a directory `dst` it moves to
   * `dst/basename(src)`, refusing when that exists; a directory that is
   * `src` itself is renamed onto itself.  Otherwise it is `os.rename`,
   * which replaces a non-directory entry at the target and fails when the
   * target's parent is not a directory (the copying fallback fails there
   * too).
   */
  function MoveFile(fs: Fs, src: Path, dst: Path): (r: Option<Fs>)
    ensures r.Some? ==> src in fs && r.value == (fs - {src})[MoveTarget(fs, src, dst) := fs[src]]
    ensures r.Some? && MoveTarget(fs, src, dst) != src ==> DirectoryAt(fs, Dirname(MoveTarget(fs, src, dst)))
  {
    var target := MoveTarget(fs, src, dst);
    if src !in fs || fs[src].locked then None
    else if IsDir(fs, dst) && SameFile(fs, src, dst) then
      if src == dst then Some((fs - {src})[dst := fs[src]]) else None
    else if IsDir(fs, dst) && Exists(fs, target) then None
    else if !DirectoryAt(fs, Dirname(target)) || (target in fs && fs[target].kind == Directory) then None
    else Some((fs - {src})[target := fs[src]])
  }

  /**
   * `os.link(target, link)` (or `CreateHardLink(link, target)`): a new
   * entry at `link` for the same file as `target`, links in `target`
   * followed.  Fails when the primitive is unavailable, `link` exists, or
   * `target` does not name a non-directory.
   */
  function HardLink(fs: Fs, target: Path, link: Path, available: bool): (r: Option<Fs>)
    ensures r.Some? ==> link !in fs && Resolve(fs, target).Some?
    ensures r.Some? ==> r.value == fs[link := fs[Resolve(fs, target).value]]
  {
    if !available || link in fs then None
    else match Resolve(fs, target)
      case None => None
      case Some(q) => if fs[q].kind == Directory then None else Some(fs[link := fs[q]])
  }

  /** What `os.mkdir` and `os.makedirs` end with: the new filesystem, `FileExistsError`, or another `OSError`. */
  datatype DirsResult = Made(fs: Fs) | Clash | Refused

  /**
   * `os.mkdir(p)`: a new directory, found under `p` without its trailing
   * '/'s; `""` and a parent that is not a directory are refused, and
   * anything already there clashes.
   */
  function Mkdir(fs: Fs, p: Path): (r: DirsResult)
    ensures r.Made? ==> Unslashed(p) !in fs && r.fs == fs[Unslashed(p) := NewDirectory]
  {
    var name := Unslashed(p);
    if |p| == 0 then Refused
    else if p in fs || name in fs then Clash
    else if !DirectoryAt(fs, Dirname(name)) then Refused
    else Made(fs[name := NewDirectory])
  }

  /** The split `os.makedirs` starts from: a name of `""` (a trailing '/') is split once more. */
  function MakedirsSplit(p: Path): (r: (Path, Path))
    ensures StartsWith(p, r.0) && |r.0| + |r.1| <= |p|
  {
    var (head, tail) := Split(p);
    if |tail| == 0 then
      var r := Split(head);
      StartsWithTrans(p, head, r.0);
      r
    else (head, tail)
  }

  /**
   * `os.makedirs(p)` with `exist_ok` off: a missing parent is made first
   * (a parent that turns out to be there already is passed over), a last
   * name of `.` ends there, and then `p` itself is made.  Only entries
   * whose paths are prefixes of `p` are added, all of them new directories.
   */
  function MakeDirs(fs: Fs, p: Path): (r: DirsResult)
    ensures r.Made? ==> fs.Keys <= r.fs.Keys && forall k :: k in fs ==> r.fs[k] == fs[k]
    ensures r.Made? ==> forall k :: k in r.fs && k !in fs ==> StartsWith(p, k) && r.fs[k] == NewDirectory
    decreases |p|
  {
    var (head, tail) := MakedirsSplit(p);
    if |head| > 0 && |tail| > 0 && !Exists(fs, head) then
      var up := MakeDirs(fs, head);
      if up.Refused? then Refused
      else
        var f := if up.Made? then up.fs else fs;
        GrownUnder(fs, f, head, p);
        if tail == "." then Made(f)
        else
          var r := Mkdir(f, p);
          if r.Made? then MkdirGrows(fs, f, p); r else r
    else Mkdir(fs, p)
  }

  /** `f` has every entry of `fs`, and adds only new directories whose paths are prefixes of `p`. */
  ghost predicate GrownBy(fs: Fs, f: Fs, p: Path)
  {
    fs.Keys <= f.Keys && (forall k :: k in fs ==> f[k] == fs[k]) &&
    forall k :: k in f && k !in fs ==> StartsWith(p, k) && f[k] == NewDirectory
  }

  lemma GrownUnder(fs: Fs, f: Fs, head: Path, p: Path)
    requires StartsWith(p, head) && GrownBy(fs, f, head)
    ensures GrownBy(fs, f, p)
  {
    forall k | k in f && k !in fs ensures StartsWith(p, k) {
      StartsWithTrans(p, head, k);
    }
  }

  lemma MkdirGrows(fs: Fs, f: Fs, p: Path)
    requires GrownBy(fs, f, p) && Mkdir(f, p).Made?
    ensures GrownBy(fs, Mkdir(f, p).fs, p)
  {
  }

  /** The machine's disk: the one piece of state the action executor changes. */
  class Disk {
    var fs: Fs

    constructor(initial: Fs)
      ensures fs == initial
    {
      fs := initial;
    }

    method Remove(p: Path) returns (ok: bool)
      modifies this
      ensures ok == RemoveFile(old(fs), p).Some?
      ensures fs == if ok then RemoveFile(old(fs), p).value else old(fs)
    {
      var r := RemoveFile(fs, p);
      ok := r.Some?;
      if ok {
        fs := r.value;
      }
    }

    method Move(src: Path, dst: Path) returns (ok: bool)
      modifies this
      ensures ok == MoveFile(old(fs), src, dst).Some?
      ensures fs == if ok then MoveFile(old(fs), src, dst).value else old(fs)
    {
      var r := MoveFile(fs, src, dst);
      ok := r.Some?;
      if ok {
        fs := r.value;
      }
    }

    method Link(target: Path, link: Path, available: bool) returns (ok: bool)
      modifies this
      ensures ok == HardLink(old(fs), target, link, available).Some?
      ensures fs == if ok then HardLink(old(fs), target, link, available).value else old(fs)
    {
      var r := HardLink(fs, target, link, available);
      ok := r.Some?;
      if ok {
        fs := r.value;
      }
    }

    method MakeDirectory(p: Path) returns (ok: bool)
      modifies this
      ensures ok == MakeDirs(old(fs), p).Made?
      ensures fs == if ok then MakeDirs(old(fs), p).fs else old(fs)
    {
      var r := MakeDirs(fs, p);
      ok := r.Made?;
      if ok {
        fs := r.fs;
      }
    }
  }
}
