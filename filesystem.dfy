/** The file system as the `create` and `add` commands change it: a map
    from path to node in which the root is a directory and the parent of
    every other path is a directory. The std::fs calls the commands make
    are functions from one file system to the next, or to an error. */
module FileSystem {
  import opened Wrappers
  import opened Json

  /** A path: its components from the root, already resolved against the
      current directory. */
  type Path = seq<string>

  datatype Node = Directory | RegularFile(content: Content)

  type Fs = map<Path, Node>

  /** `p.starts_with(base)` on components. */
  predicate IsPrefix(base: Path, p: Path) {
    |base| <= |p| && p[..|base|] == base
  }

  /** `Path::file_name`: the last component; the root has none. */
  function BaseName(p: Path): (r: Option<string>)
    ensures r.Some? <==> |p| > 0
    ensures r.Some? ==> p == p[..|p| - 1] + [r.value]
  {
    if |p| == 0 then None else Some(p[|p| - 1])
  }

  /** The root is a directory and the parent of every other path is a
      directory. */
  predicate Valid(fs: Fs) {
    && [] in fs && fs[[]] == Directory
    && forall p :: p in fs && |p| > 0 ==> p[..|p| - 1] in fs && fs[p[..|p| - 1]] == Directory
  }

  predicate IsDir(fs: Fs, p: Path) {
    p in fs && fs[p] == Directory
  }

  predicate IsFile(fs: Fs, p: Path) {
    p in fs && fs[p].RegularFile?
  }

  /** Every path of a valid file system has all its ancestors in it, as
      directories. */
  lemma {:induction false} AncestorsPresent(fs: Fs, p: Path, k: nat)
    requires Valid(fs) && p in fs && k < |p|
    ensures IsDir(fs, p[..k])
    decreases |p| - k
  {
    var up := p[..|p| - 1];
    if k < |up| {
      AncestorsPresent(fs, up, k);
      assert up[..k] == p[..k];
    }
  }

  /** Nothing lies below a path that is missing from a valid file system. */
  lemma NothingBelowMissing(fs: Fs, base: Path, p: Path)
    requires Valid(fs) && base !in fs && p in fs
    ensures !IsPrefix(base, p)
  {
    if |base| < |p| {
      AncestorsPresent(fs, p, |base|);
    } else if |base| == |p| {
      assert p[..|base|] == p;
    }
  }

  /** A path below the parent of q is q itself or below it. */
  lemma PrefixOfParent(base: Path, q: Path)
    requires |q| > 0
    ensures IsPrefix(base, q[..|q| - 1]) ==> IsPrefix(base, q)
  {
    if IsPrefix(base, q[..|q| - 1]) {
      assert q[..|q| - 1][..|base|] == q[..|base|];
    }
  }

  /** p or one of its ancestors is a file. */
  predicate FileOnWay(fs: Fs, p: Path) {
    exists k :: 0 <= k <= |p| && IsFile(fs, p[..k])
  }

  lemma FileOnWayStep(fs: Fs, p: Path)
    requires |p| > 0
    ensures FileOnWay(fs, p) <==> FileOnWay(fs, p[..|p| - 1]) || IsFile(fs, p)
  {
    var up := p[..|p| - 1];
    assert forall k :: 0 <= k <= |up| ==> up[..k] == p[..k];
    assert p[..|p|] == p;
    if FileOnWay(fs, p) && !IsFile(fs, p) {
      var k :| 0 <= k <= |p| && IsFile(fs, p[..k]);
      assert IsFile(fs, up[..k]);
    }
    if FileOnWay(fs, up) {
      var k :| 0 <= k <= |up| && IsFile(fs, up[..k]);
      assert IsFile(fs, p[..k]);
    }
  }

  /** Why a file system call fails. */
  datatype FsError = NotFound(path: Path) | NotADirectory(path: Path) | IsADirectory(path: Path)

  /** `fs::create_dir_all(p)`: every missing directory on the way to p is
      created; it fails when p or one of its ancestors is a file. */
  function CreateDirAll(fs: Fs, p: Path): (r: Result<Fs, FsError>)
    requires Valid(fs)
    ensures r.Err? <==> FileOnWay(fs, p)
    ensures r.Ok? ==> Valid(r.value) && IsDir(r.value, p)
    ensures r.Ok? ==> forall q :: q in fs ==> q in r.value && r.value[q] == fs[q]
    ensures r.Ok? ==> forall q :: q in r.value && q !in fs ==> IsPrefix(q, p) && r.value[q] == Directory
    decreases |p|
  {
    if |p| == 0 then
      assert p[..0] == p;
      Ok(fs)
    else
      var up := p[..|p| - 1];
      FileOnWayStep(fs, p);
      match CreateDirAll(fs, up)
      case Err(e) => Err(e)
      case Ok(dirs) =>
        if p in dirs then
          if dirs[p] == Directory then
            CreatedBelow(fs, dirs, p);
            Ok(dirs)
          else Err(NotADirectory(p))
        else
          CreatedBelow(fs, dirs, p);
          Ok(dirs[p := Directory])
  }

  /** The directories created on the way to the parent of p lie on the
      way to p. */
  lemma CreatedBelow(fs: Fs, dirs: Fs, p: Path)
    requires |p| > 0
    requires forall q :: q in dirs && q !in fs ==> IsPrefix(q, p[..|p| - 1])
    ensures forall q :: q in dirs && q !in fs ==> IsPrefix(q, p)
  {
    forall q | q in dirs && q !in fs ensures IsPrefix(q, p) {
      assert p[..|q|] == p[..|p| - 1][..|q|];
    }
  }

  /** A directory of a valid file system has no file on its way. */
  lemma NoFileOnWayToDir(fs: Fs, dir: Path)
    requires Valid(fs) && IsDir(fs, dir)
    ensures !FileOnWay(fs, dir)
  {
    forall k | 0 <= k <= |dir|
      ensures IsDir(fs, dir[..k])
    {
      if k < |dir| {
        AncestorsPresent(fs, dir, k);
      } else {
        assert dir[..k] == dir;
      }
    }
  }

  /** The directories create_dir_all adds on the way to a path below an
      existing directory `base` all lie strictly below `base`. */
  lemma GrownBelow(fs: Fs, base: Path, p: Path, grown: Fs)
    requires Valid(fs) && IsDir(fs, base) && IsPrefix(base, p)
    requires forall q :: q in grown && q !in fs ==> IsPrefix(q, p)
    ensures forall q :: q in grown && q !in fs ==> |q| > |base| && IsPrefix(base, q)
  {
    forall q | q in grown && q !in fs
      ensures |q| > |base| && IsPrefix(base, q)
    {
      if |q| < |base| {
        assert q == base[..|q|];
        AncestorsPresent(fs, base, |q|);
      } else if |q| > |base| {
        assert q[..|base|] == p[..|base|];
      }
    }
  }

  /** `fs::remove_dir_all(p)`: p and everything below it disappear; it
      fails when p is missing or a file. */
  function RemoveDirAll(fs: Fs, p: Path): (r: Result<Fs, FsError>)
    requires Valid(fs) && |p| > 0
    ensures p !in fs ==> r == Err(NotFound(p))
    ensures IsFile(fs, p) ==> r == Err(NotADirectory(p))
    ensures IsDir(fs, p) ==> r.Ok? && Valid(r.value)
    ensures r.Ok? ==> forall q :: q in r.value <==> q in fs && !IsPrefix(p, q)
    ensures r.Ok? ==> forall q :: q in r.value ==> r.value[q] == fs[q]
  {
    if p !in fs then Err(NotFound(p))
    else if fs[p].RegularFile? then Err(NotADirectory(p))
    else
      var r := map q | q in fs && !IsPrefix(p, q) :: fs[q];
      assert Valid(r) by {
        assert !IsPrefix(p, []);
        forall q | q in r && |q| > 0
          ensures q[..|q| - 1] in r
        {
          PrefixOfParent(p, q);
        }
      }
      Ok(r)
  }

  /** `fs::write(p, content)`: the file is created or replaced; it fails
      when the parent is missing or a file, or p is a directory. */
  function Write(fs: Fs, p: Path, content: Content): (r: Result<Fs, FsError>)
    requires Valid(fs)
    ensures r.Ok? <==> |p| > 0 && IsDir(fs, p[..|p| - 1]) && !IsDir(fs, p)
    ensures r.Ok? ==> r.value == fs[p := RegularFile(content)] && Valid(r.value)
  {
    if |p| == 0 then Err(IsADirectory(p))
    else if p[..|p| - 1] !in fs then Err(NotFound(p[..|p| - 1]))
    else if fs[p[..|p| - 1]].RegularFile? then Err(NotADirectory(p[..|p| - 1]))
    else if IsDir(fs, p) then Err(IsADirectory(p))
    else Ok(fs[p := RegularFile(content)])
  }

  /** `fs::copy(src, dst)`: dst gets the content of the file src; it fails
      when src is missing or a directory, or when writing dst fails. */
  function Copy(fs: Fs, src: Path, dst: Path): (r: Result<Fs, FsError>)
    requires Valid(fs)
    ensures !IsFile(fs, src) ==> r.Err?
    ensures IsFile(fs, src) ==> r == Write(fs, dst, fs[src].content)
  {
    if src !in fs then Err(NotFound(src))
    else if fs[src] == Directory then Err(IsADirectory(src))
    else Write(fs, dst, fs[src].content)
  }
}
