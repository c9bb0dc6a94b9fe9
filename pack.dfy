/** The `pack` command (src/commands/pack.rs): like `zip`, but the format
    must be a number and is truncated to a byte, the archive always gets
    the default name, and an existing archive is always asked about. */
module PackCommand {
  import opened Wrappers
  import opened Json
  import opened PackFormats
  import Info
  import opened FileSystem
  import opened Archive

  /** pack.pack_format as a u64 truncated to a byte (`as u8`); a missing
      or non-integer value, a string included, is an error. */
  function PackFormat(mcmeta: Json): (r: Result<u8, ArchiveError>)
    ensures r.Err? ==> r.error == MissingPackFormat
    ensures r.Err? <==>
      var pf := GetOpt(Get(mcmeta, "pack"), "pack_format");
      pf.None? || AsU64(pf.value).None?
    ensures r.Ok? ==> r.value == Info.AsU8(AsU64(GetOpt(Get(mcmeta, "pack"), "pack_format").value).value)
  {
    match GetOpt(Get(mcmeta, "pack"), "pack_format")
    case None => Err(MissingPackFormat)
    case Some(pf) =>
      match AsU64(pf)
      case None => Err(MissingPackFormat)
      case Some(n) => Ok(Info.AsU8(n))
  }

  /** A format written as text is refused, where `zip` accepts it. */
  lemma TextFormatRefused(mcmeta: Json, text: string)
    requires GetOpt(Get(mcmeta, "pack"), "pack_format") == Some(Str(text))
    ensures PackFormat(mcmeta) == Err(MissingPackFormat)
  {
  }

  /** A format of 304 is read as 304 - 256 = 48, a known format, so the
      archive is named after the versions of format 48. */
  lemma FormatWrapsAround(mcmeta: Json, dirName: string)
    requires GetOpt(Get(mcmeta, "pack"), "pack_format") == Some(Num(Int(304)))
    ensures PackFormat(mcmeta) == Ok(48)
    ensures DefaultArchiveName(dirName, GetVersionInfo(PackFormat(mcmeta).value)) == dirName + "_1.21.1.zip"
  {
    assert PackFormat(mcmeta) == Ok(48);
    assert GetVersionInfo(48) == Some(["1.21", "1.21.1"]);
    assert dirName + "_" + "1.21.1" + ".zip" == dirName + "_1.21.1.zip";
  }

  /** The output directory: the current directory when a path was given,
      else the datapack directory. */
  function OutputDir(path: Option<Path>, cwd: Path, datapack: Path): (r: Path)
    ensures path.Some? ==> r == cwd
    ensures path.None? ==> r == datapack
  {
    if path.Some? then cwd else datapack
  }

  /** pack::run. `dirs` holds the directories the command can see, by
      path; `confirm` is the answer to the overwrite prompt, which an
      existing archive always raises. */
  method Run(path: Option<Path>, cwd: Path, dirs: map<Path, Tree>, confirm: bool)
    returns (r: Result<Outcome, ArchiveError>)
    ensures var datapack := if path.Some? then path.value else cwd;
      && (ReadMcmeta(dirs, datapack).Err? ==> r == Err(ReadMcmeta(dirs, datapack).error))
      && ((ReadMcmeta(dirs, datapack).Ok? && PackFormat(ReadMcmeta(dirs, datapack).value).Err?)
          ==> r == Err(MissingPackFormat))
      && ((ReadMcmeta(dirs, datapack).Ok? && PackFormat(ReadMcmeta(dirs, datapack).value).Ok?
           && BaseName(datapack).None?) ==> r == Err(InvalidDatapackPath))
    ensures r.Ok? ==>
      var datapack := if path.Some? then path.value else cwd;
      && ReadMcmeta(dirs, datapack).Ok?
      && PackFormat(ReadMcmeta(dirs, datapack).value).Ok?
      && BaseName(datapack).Some?
      && var zipName := DefaultArchiveName(BaseName(datapack).value,
                                           GetVersionInfo(PackFormat(ReadMcmeta(dirs, datapack).value).value));
      && var output := OutputDir(path, cwd, datapack);
      && (r.value == Cancelled <==> PathExists(dirs, output + [zipName]) && !confirm)
      && (r.value.Created? ==>
            && !CreateFails(dirs, output, zipName)
            && var walked := Walked(dirs[datapack], datapack, output, zipName);
            r.value == Created(output + [zipName], Archived(walked, []), Files(dirs[datapack]), Files(walked)))
    ensures var datapack := if path.Some? then path.value else cwd;
      (ReadMcmeta(dirs, datapack).Ok? && PackFormat(ReadMcmeta(dirs, datapack).value).Ok?
       && BaseName(datapack).Some?) ==>
        var zipName := DefaultArchiveName(BaseName(datapack).value,
                                          GetVersionInfo(PackFormat(ReadMcmeta(dirs, datapack).value).value));
        var output := OutputDir(path, cwd, datapack);
        var cancelled := PathExists(dirs, output + [zipName]) && !confirm;
        && (cancelled ==> r == Ok(Cancelled))
        && (!cancelled && CreateFails(dirs, output, zipName) ==> r == Err(CreateFailed))
        && (!cancelled && !CreateFails(dirs, output, zipName) ==>
              var walked := Walked(dirs[datapack], datapack, output, zipName);
              r == Ok(Created(output + [zipName], Archived(walked, []), Files(dirs[datapack]), Files(walked))))
  {
    var datapack := if path.Some? then path.value else cwd;
    var mcmeta :- ReadMcmeta(dirs, datapack);
    var format :- PackFormat(mcmeta);
    var dirName := BaseName(datapack);
    if dirName.None? {
      return Err(InvalidDatapackPath);
    }
    var output := OutputDir(path, cwd, datapack);
    var zipName := DefaultArchiveName(dirName.value, GetVersionInfo(format));
    if PathExists(dirs, output + [zipName]) {
      if !confirm {
        return Ok(Cancelled);
      }
    }
    r := WriteArchive(dirs, datapack, output, zipName);
  }
}
