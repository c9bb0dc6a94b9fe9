/** The directory walk shared by the `zip` and `pack` commands
    (count_files and add_directory_to_zip in src/commands/zip.rs and
    src/commands/pack.rs): a directory is a tree whose entries come in
    read_dir order, the archive under construction is a writer object that
    collects entries, and the progress bar is an object with a position.
    The commands see the file system as a map from directory paths to the
    trees read there. Each command reads the source directory once, looks
    up the archive's target once, and never compares the two readings, so
    nothing below depends on dirs[p]'s children agreeing with the entries
    recorded for the paths below p; a caller that wants one consistent
    file system passes a map whose entries agree. */
module Archive {
  import opened Wrappers
  import opened Text
  import opened Json
  import opened Info
  import opened FileSystem

  /** An entry of a directory as read_dir yields it: a file with its
      content, or a directory with its own entries in read_dir order. */
  datatype Tree = File(name: string, data: Content) | Dir(name: string, children: seq<Tree>)

  /** `s.replace(from, to)` for single characters. */
  function ReplaceChar(s: string, from: char, to: char): (r: string)
    ensures |r| == |s|
    ensures forall k :: 0 <= k < |s| ==> r[k] == (if s[k] == from then to else s[k])
    ensures from != to ==> from !in r
  {
    seq(|s|, k requires 0 <= k < |s| => if s[k] == from then to else s[k])
  }

  /** Replacing a character that does not occur changes nothing. */
  lemma ReplaceAbsent(s: string, from: char, to: char)
    requires from !in s
    ensures ReplaceChar(s, from, to) == s
  {
  }

  /** The name of the archive entry of a file whose path relative to the
      archived directory has the components `rel`: the components joined by
      '/', with every '\' turned into '/'. */
  function EntryName(rel: seq<string>): (name: string)
    ensures '\\' !in name
  {
    ReplaceChar(Join(rel, "/"), '\\', '/')
  }

  /** The number of files, at any depth, in the first n entries of a
      directory. */
  function FileCount(dir: Tree, n: nat): nat
    requires dir.Dir? && n <= |dir.children|
    decreases dir, n
  {
    if n == 0 then 0
    else
      var c := dir.children[n - 1];
      FileCount(dir, n - 1) + (if c.Dir? then FileCount(c, |c.children|) else 1)
  }

  /** The number of files, at any depth, in a directory. */
  function Files(dir: Tree): nat
    requires dir.Dir?
  {
    FileCount(dir, |dir.children|)
  }

  /** The archive entries written for the first n entries of a directory
      whose path relative to the archived directory is `rel`: depth first,
      in read_dir order, one entry per file. */
  function Walk(dir: Tree, rel: seq<string>, n: nat): seq<Entry>
    requires dir.Dir? && n <= |dir.children|
    decreases dir, n
  {
    if n == 0 then []
    else
      var c := dir.children[n - 1];
      Walk(dir, rel, n - 1)
      + (if c.Dir? then Walk(c, rel + [c.name], |c.children|) else [Entry(EntryName(rel + [c.name]), c.data)])
  }

  /** The archive entries of a whole directory. */
  function Archived(dir: Tree, rel: seq<string>): seq<Entry>
    requires dir.Dir?
  {
    Walk(dir, rel, |dir.children|)
  }

  /** One archive entry per file: the walk writes as many entries as
      count_files counts. */
  lemma {:induction false} WalkCount(dir: Tree, rel: seq<string>, n: nat)
    requires dir.Dir? && n <= |dir.children|
    ensures |Walk(dir, rel, n)| == FileCount(dir, n)
    decreases dir, n
  {
    if n > 0 {
      WalkCount(dir, rel, n - 1);
      var c := dir.children[n - 1];
      if c.Dir? {
        WalkCount(c, rel + [c.name], |c.children|);
      }
    }
  }

  /** No entry name holds a '\'. */
  lemma {:induction false} WalkNames(dir: Tree, rel: seq<string>, n: nat)
    requires dir.Dir? && n <= |dir.children|
    ensures forall k :: 0 <= k < |Walk(dir, rel, n)| ==> '\\' !in Walk(dir, rel, n)[k].name
    decreases dir, n
  {
    if n > 0 {
      WalkNames(dir, rel, n - 1);
      var c := dir.children[n - 1];
      if c.Dir? {
        WalkNames(c, rel + [c.name], |c.children|);
      }
    }
  }

  /** Every file of the directory, with the components of its path below
      `rel`, has its entry in the walk, holding the file's content. */
  lemma {:induction false} WalkHasFile(dir: Tree, rel: seq<string>, n: nat, i: nat)
    requires dir.Dir? && n <= |dir.children| && i < n && dir.children[i].File?
    ensures Entry(EntryName(rel + [dir.children[i].name]), dir.children[i].data) in Walk(dir, rel, n)
    decreases n
  {
    if i < n - 1 {
      WalkHasFile(dir, rel, n - 1, i);
    }
  }

  /** Every entry written for a subdirectory of the directory, under the
      subdirectory's relative path, is in the walk. */
  lemma {:induction false} WalkHasDir(dir: Tree, rel: seq<string>, n: nat, i: nat)
    requires dir.Dir? && n <= |dir.children| && i < n && dir.children[i].Dir?
    ensures forall e :: e in Archived(dir.children[i], rel + [dir.children[i].name]) ==> e in Walk(dir, rel, n)
    decreases n
  {
    if i < n - 1 {
      WalkHasDir(dir, rel, n - 1, i);
    }
  }

  /** A path of child indices from a directory down to a file: every step
      but the last enters a subdirectory. */
  predicate IsFilePath(dir: Tree, path: seq<nat>)
    decreases |path|
  {
    dir.Dir? && |path| > 0 && path[0] < |dir.children|
    && (var c := dir.children[path[0]];
        if |path| == 1 then c.File? else c.Dir? && IsFilePath(c, path[1..]))
  }

  /** The file at the end of a path of child indices. */
  function FileAt(dir: Tree, path: seq<nat>): (f: Tree)
    requires IsFilePath(dir, path)
    ensures f.File?
    decreases |path|
  {
    var c := dir.children[path[0]];
    if |path| == 1 then c else FileAt(c, path[1..])
  }

  /** The components of the path of the file at the end of a path of
      child indices, relative to the directory. */
  function PathNames(dir: Tree, path: seq<nat>): (names: seq<string>)
    requires IsFilePath(dir, path)
    ensures |names| == |path|
    decreases |path|
  {
    var c := dir.children[path[0]];
    if |path| == 1 then [c.name] else [c.name] + PathNames(c, path[1..])
  }

  /** Every file of the tree, at any depth, has its entry in the archive:
      named by its path relative to the archived directory, holding its
      content. */
  lemma {:induction false} ArchivedHasFile(dir: Tree, rel: seq<string>, path: seq<nat>)
    requires IsFilePath(dir, path)
    ensures Entry(EntryName(rel + PathNames(dir, path)), FileAt(dir, path).data) in Archived(dir, rel)
    decreases |path|
  {
    var i := path[0];
    var c := dir.children[i];
    if |path| == 1 {
      WalkHasFile(dir, rel, |dir.children|, i);
    } else {
      ArchivedHasFile(c, rel + [c.name], path[1..]);
      assert rel + [c.name] + PathNames(c, path[1..]) == rel + PathNames(dir, path);
      WalkHasDir(dir, rel, |dir.children|, i);
    }
  }

  /** The archive being written: the entries started so far, in order. */
  class ZipWriter {
    var entries: seq<Entry>

    /** `ZipWriter::new`: an empty archive. */
    constructor ()
      ensures entries == []
    {
      entries := [];
    }

    /** `start_file(name)` followed by `write_all` of the file's content. */
    method AddFile(name: string, data: Content)
      modifies this
      ensures entries == old(entries) + [Entry(name, data)]
    {
      entries := entries + [Entry(name, data)];
    }
  }

  /** The progress bar: its length and the number of increments so far. */
  class ProgressBar {
    var length: nat
    var position: nat

    /** `ProgressBar::new(length)`. */
    constructor (length: nat)
      ensures this.length == length && position == 0
    {
      this.length := length;
      position := 0;
    }

    /** `inc(1)`. */
    method Inc()
      modifies this
      ensures position == old(position) + 1 && length == old(length)
    {
      position := position + 1;
    }
  }

  /** count_files: the files of a directory at any depth. */
  method CountFiles(dir: Tree) returns (count: nat)
    requires dir.Dir?
    ensures count == Files(dir)
    decreases dir
  {
    count := 0;
    for i := 0 to |dir.children|
      invariant count == FileCount(dir, i)
    {
      var entry := dir.children[i];
      if entry.Dir? {
        var inner := CountFiles(entry);
        count := count + inner;
      } else {
        count := count + 1;
      }
    }
  }

  /** add_directory_to_zip: every file below the directory, depth first in
      read_dir order, becomes one entry named by its path relative to the
      archived directory; the progress bar advances once per file. */
  method AddDirectoryToZip(zip: ZipWriter, dir: Tree, rel: seq<string>, progress: ProgressBar)
    requires dir.Dir?
    modifies zip, progress
    ensures zip.entries == old(zip.entries) + Archived(dir, rel)
    ensures progress.position == old(progress.position) + Files(dir)
    ensures progress.length == old(progress.length)
    decreases dir
  {
    for i := 0 to |dir.children|
      invariant zip.entries == old(zip.entries) + Walk(dir, rel, i)
      invariant progress.position == old(progress.position) + FileCount(dir, i)
      invariant progress.length == old(progress.length)
    {
      var entry := dir.children[i];
      if entry.Dir? {
        AddDirectoryToZip(zip, entry, rel + [entry.name], progress);
      } else {
        zip.AddFile(EntryName(rel + [entry.name]), entry.data);
        progress.Inc();
      }
    }
  }

  // ---------------------------------------------------------------------
  // What run in zip.rs and pack.rs share

  /** The first of a list of directory entries with a given name. */
  function FindChild(children: seq<Tree>, name: string): (r: Option<Tree>)
    ensures r.Some? ==> r.value in children && r.value.name == name
    ensures r.None? <==> forall i :: 0 <= i < |children| ==> children[i].name != name
  {
    if |children| == 0 then None
    else if children[0].name == name then Some(children[0])
    else
      var r := FindChild(children[1..], name);
      assert r.None? ==> forall i :: 0 <= i < |children| ==> children[i].name != name by {
        if r.None? {
          forall i | 0 < i < |children| ensures children[i].name != name {
            assert children[i] == children[1..][i - 1];
          }
        }
      }
      r
  }

  /** `p.exists()`: p is a directory of the map, or an entry of one. */
  predicate PathExists(dirs: map<Path, Tree>, p: Path) {
    p in dirs
    || (|p| > 0 && p[..|p| - 1] in dirs && dirs[p[..|p| - 1]].Dir?
        && FindChild(dirs[p[..|p| - 1]].children, p[|p| - 1]).Some?)
  }

  /** `File::create(dir/name)` fails: the directory is missing, or the
      name is taken by a directory. */
  predicate CreateFails(dirs: map<Path, Tree>, dir: Path, name: string) {
    dir !in dirs || !dirs[dir].Dir?
    || (FindChild(dirs[dir].children, name).Some? && FindChild(dirs[dir].children, name).value.Dir?)
  }

  /** Why `zip` or `pack` stops with an error. */
  datatype ArchiveError =
    | BothPathAndInputDir
    | NotADatapack
    | ReadFailed
    | InvalidJson
    | MissingPackFormat
    | InvalidDatapackPath
    | BadZipName(name: string)
    | CreateFailed

  /** pack.mcmeta of a datapack directory, parsed: an error when the
      directory or the file is missing, when it is a directory, and when
      its content does not parse. */
  function ReadMcmeta(dirs: map<Path, Tree>, datapack: Path): (r: Result<Json, ArchiveError>)
    ensures (datapack !in dirs || !dirs[datapack].Dir? || FindChild(dirs[datapack].children, "pack.mcmeta").None?)
            <==> r == Err(NotADatapack)
    ensures r.Ok? ==> exists i :: 0 <= i < |dirs[datapack].children|
                        && dirs[datapack].children[i].File?
                        && dirs[datapack].children[i].name == "pack.mcmeta"
                        && ParseContent(dirs[datapack].children[i].data) == Some(r.value)
    ensures datapack in dirs && dirs[datapack].Dir? && FindChild(dirs[datapack].children, "pack.mcmeta").Some? ==>
      var entry := FindChild(dirs[datapack].children, "pack.mcmeta").value;
      && (entry.Dir? ==> r == Err(ReadFailed))
      && (entry.File? && ParseContent(entry.data).None? ==> r == Err(InvalidJson))
      && (entry.File? && ParseContent(entry.data).Some? ==> r == Ok(ParseContent(entry.data).value))
  {
    if datapack !in dirs || !dirs[datapack].Dir? then Err(NotADatapack)
    else match FindChild(dirs[datapack].children, "pack.mcmeta")
      case None => Err(NotADatapack)
      case Some(entry) =>
        if entry.Dir? then Err(ReadFailed)
        else match ParseContent(entry.data)
          case None => Err(InvalidJson)
          case Some(mcmeta) => Ok(mcmeta)
  }

  /** The default archive name: the directory name, then "_" and the last
      game version of the format when the format is known, then ".zip". */
  function DefaultArchiveName(dirName: string, versions: Option<seq<string>>): (name: string)
    requires versions.Some? ==> |versions.value| > 0
    ensures StartsWith(name, dirName) && EndsWith(name, ".zip")
    ensures versions.None? ==> name == dirName + ".zip"
    ensures versions.Some? ==> name == dirName + "_" + versions.value[|versions.value| - 1] + ".zip"
  {
    var suffix := if versions.Some? then "_" + versions.value[|versions.value| - 1] else "";
    assert (dirName + suffix + ".zip")[..|dirName|] == dirName;
    dirName + suffix + ".zip"
  }

  /** The directory after `File::create` made an empty file `name` in its
      subdirectory `rel` (when that subdirectory exists): an existing file
      of that name is truncated in place, a new one is listed last. */
  function WithNewFile(dir: Tree, rel: seq<string>, name: string): (r: Tree)
    requires dir.Dir?
    ensures r.Dir? && r.name == dir.name
    decreases dir
  {
    if |rel| == 0 then
      if FindChild(dir.children, name).Some? then
        Dir(dir.name, seq(|dir.children|, i requires 0 <= i < |dir.children| =>
          if dir.children[i].name == name && dir.children[i].File? then File(name, Binary([])) else dir.children[i]))
      else
        Dir(dir.name, dir.children + [File(name, Binary([]))])
    else
      Dir(dir.name, seq(|dir.children|, i requires 0 <= i < |dir.children| =>
        if dir.children[i].name == rel[0] && dir.children[i].Dir?
        then WithNewFile(dir.children[i], rel[1..], name) else dir.children[i]))
  }

  /** What a `zip` or `pack` run ends with. */
  datatype Outcome =
    | Cancelled
    | Created(path: Path, entries: seq<Entry>, length: nat, position: nat)

  /** The tree the walk reads: the archive is created before the walk, so
      when it lies inside the archived directory the walk meets it. */
  function Walked(dir: Tree, datapack: Path, output: Path, zipName: string): (r: Tree)
    requires dir.Dir?
    ensures r.Dir?
  {
    if IsPrefix(datapack, output) then WithNewFile(dir, output[|datapack|..], zipName) else dir
  }

  /** The tail of run: count the files, create the archive, add the
      directory to it with the progress bar, and finish. */
  method WriteArchive(dirs: map<Path, Tree>, datapack: Path, output: Path, zipName: string)
    returns (r: Result<Outcome, ArchiveError>)
    requires datapack in dirs && dirs[datapack].Dir?
    ensures CreateFails(dirs, output, zipName) ==> r == Err(CreateFailed)
    ensures !CreateFails(dirs, output, zipName) ==>
      var walked := Walked(dirs[datapack], datapack, output, zipName);
      r == Ok(Created(output + [zipName], Archived(walked, []), Files(dirs[datapack]), Files(walked)))
  {
    var dir := dirs[datapack];
    var total := CountFiles(dir);
    var progress := new ProgressBar(total);
    if CreateFails(dirs, output, zipName) {
      return Err(CreateFailed);
    }
    var walked := Walked(dir, datapack, output, zipName);
    var zip := new ZipWriter();
    AddDirectoryToZip(zip, walked, [], progress);
    assert zip.entries == Archived(walked, []);
    assert progress.length == total;
    assert progress.position == Files(walked);
    r := Ok(Created(output + [zipName], zip.entries, progress.length, progress.position));
  }

  /** When the archive is written into the archived directory itself and
      no file of its name was there, the walk meets the new archive: there
      is one entry more than the progress bar's length, and it carries the
      archive's own name. */
  lemma ArchiveMeetsItself(dir: Tree, datapack: Path, zipName: string)
    requires dir.Dir? && FindChild(dir.children, zipName).None?
    ensures var walked := Walked(dir, datapack, datapack, zipName);
      && Files(walked) == Files(dir) + 1
      && Entry(EntryName([zipName]), Binary([])) in Archived(walked, [])
  {
    var walked := Walked(dir, datapack, datapack, zipName);
    assert datapack[|datapack|..] == [];
    assert walked == Dir(dir.name, dir.children + [File(zipName, Binary([]))]);
    var n := |dir.children|;
    assert walked.children[..n] == dir.children;
    FileCountPrefix(dir, walked, n);
    WalkHasFile(walked, [], n + 1, n);
  }

  /** Two directories whose first n entries agree have the same count of
      files in them. */
  lemma {:induction false} FileCountPrefix(a: Tree, b: Tree, n: nat)
    requires a.Dir? && b.Dir? && n <= |a.children| && n <= |b.children|
    requires a.children[..n] == b.children[..n]
    ensures FileCount(a, n) == FileCount(b, n)
    decreases n
  {
    if n > 0 {
      assert a.children[..n - 1] == a.children[..n][..n - 1];
      assert b.children[..n - 1] == b.children[..n][..n - 1];
      assert a.children[n - 1] == a.children[..n][n - 1];
      assert b.children[n - 1] == b.children[..n][n - 1];
      FileCountPrefix(a, b, n - 1);
    }
  }

  /** When the archive lies outside the archived directory, the archive
      holds one entry per file and the progress bar ends at its length. */
  lemma ProgressMatchesCount(dir: Tree, datapack: Path, output: Path, zipName: string)
    requires dir.Dir? && !IsPrefix(datapack, output)
    ensures var walked := Walked(dir, datapack, output, zipName);
      && Files(walked) == Files(dir)
      && |Archived(walked, [])| == Files(dir)
  {
    WalkCount(dir, [], |dir.children|);
  }
}
