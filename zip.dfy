/** The `zip` command (src/commands/zip.rs): choose the datapack directory,
    read its format from pack.mcmeta, name the archive, choose where it
    goes, ask before overwriting, and archive the directory. The current
    directory is a parameter, and so is the answer to the overwrite
    prompt. */
module ZipCommand {
  import opened Wrappers
  import opened Text
  import opened Json
  import opened PackFormats
  import opened FileSystem
  import opened Archive

  /** The datapack directory: the path or the input directory, whichever
      is given, else the current directory; both is an error. */
  function SourceDir(path: Option<Path>, inputDir: Option<Path>, cwd: Path): (r: Result<Path, ArchiveError>)
    ensures r.Err? <==> path.Some? && inputDir.Some?
    ensures r.Err? ==> r.error == BothPathAndInputDir
    ensures r.Ok? ==> r.value == (if path.Some? then path.value else if inputDir.Some? then inputDir.value else cwd)
  {
    match (path, inputDir)
    case (Some(p), None) => Ok(p)
    case (None, Some(dir)) => Ok(dir)
    case (Some(_), Some(_)) => Err(BothPathAndInputDir)
    case (None, None) => Ok(cwd)
  }

  /** The format as text: pack.pack_format when it is a string, its
      decimal digits when it is a u64, an error otherwise. */
  function FormatText(mcmeta: Json): (r: Result<string, ArchiveError>)
    ensures r.Err? ==> r.error == MissingPackFormat
    ensures r.Err? <==>
      var pf := GetOpt(Get(mcmeta, "pack"), "pack_format");
      pf.None? || (AsStr(pf.value).None? && AsU64(pf.value).None?)
    ensures r.Ok? ==>
      var pf := GetOpt(Get(mcmeta, "pack"), "pack_format").value;
      (pf.Str? && r.value == pf.s) || (!pf.Str? && r.value == DecimalString(AsU64(pf).value))
  {
    match GetOpt(Get(mcmeta, "pack"), "pack_format")
    case None => Err(MissingPackFormat)
    case Some(pf) =>
      match AsStr(pf)
      case Some(s) => Ok(s)
      case None =>
        match AsU64(pf)
        case Some(n) => Ok(DecimalString(n))
        case None => Err(MissingPackFormat)
  }

  /** The first format of a list whose decimal digits are the text. */
  function FindFormat(formats: seq<u8>, text: string): (r: Option<u8>)
    ensures r.Some? ==> r.value in formats && DecimalString(r.value) == text
    ensures r.None? ==> forall f :: f in formats ==> DecimalString(f) != text
  {
    if |formats| == 0 then None
    else if DecimalString(formats[0]) == text then Some(formats[0])
    else FindFormat(formats[1..], text)
  }

  /** `get_version_info(&pack_format)` on the text of the format: the
      versions of the known format whose decimal digits are that text. */
  function VersionsOfText(text: string): (r: Option<seq<string>>)
    ensures r.Some? ==> |r.value| > 0
    ensures r.Some? <==> exists f :: f in PackFormats.PackFormats && DecimalString(f) == text
  {
    match FindFormat(PackFormats.PackFormats, text)
    case None => None
    case Some(f) => GetVersionInfo(f)
  }

  /** The archive name: a custom name must end with ".zip"; without one,
      the default name of the directory and the format. */
  function ZipName(name: Option<string>, dirName: string, format: string): (r: Result<string, ArchiveError>)
    ensures name.Some? && !EndsWith(name.value, ".zip") ==> r == Err(BadZipName(name.value))
    ensures name.Some? && EndsWith(name.value, ".zip") ==> r == Ok(name.value)
    ensures name.None? ==> r == Ok(DefaultArchiveName(dirName, VersionsOfText(format)))
    ensures r.Ok? ==> EndsWith(r.value, ".zip")
  {
    match name
    case Some(custom) => if !EndsWith(custom, ".zip") then Err(BadZipName(custom)) else Ok(custom)
    case None => Ok(DefaultArchiveName(dirName, VersionsOfText(format)))
  }

  /** The output directory: the explicit one, else the current directory
      when a path was given, else the datapack directory. */
  function OutputDir(outputDir: Option<Path>, path: Option<Path>, cwd: Path, datapack: Path): (r: Path)
    ensures outputDir.Some? ==> r == outputDir.value
    ensures outputDir.None? && path.Some? ==> r == cwd
    ensures outputDir.None? && path.None? ==> r == datapack
  {
    if outputDir.Some? then outputDir.value else if path.Some? then cwd else datapack
  }

  /** zip::run. `dirs` holds the directories the command can see, by
      path; `confirm` is the answer to the overwrite prompt. */
  method Run(path: Option<Path>, force: bool, name: Option<string>, outputDir: Option<Path>,
             inputDir: Option<Path>, cwd: Path, dirs: map<Path, Tree>, confirm: bool)
    returns (r: Result<Outcome, ArchiveError>)
    ensures path.Some? && inputDir.Some? ==> r == Err(BothPathAndInputDir)
    ensures SourceDir(path, inputDir, cwd).Ok? ==>
      var datapack := SourceDir(path, inputDir, cwd).value;
      && (ReadMcmeta(dirs, datapack).Err? ==> r == Err(ReadMcmeta(dirs, datapack).error))
      && ((ReadMcmeta(dirs, datapack).Ok? && FormatText(ReadMcmeta(dirs, datapack).value).Err?)
          ==> r == Err(MissingPackFormat))
      && ((ReadMcmeta(dirs, datapack).Ok? && FormatText(ReadMcmeta(dirs, datapack).value).Ok?
           && BaseName(datapack).None?) ==> r == Err(InvalidDatapackPath))
    ensures r.Ok? ==>
      && SourceDir(path, inputDir, cwd).Ok?
      && var datapack := SourceDir(path, inputDir, cwd).value;
      && ReadMcmeta(dirs, datapack).Ok?
      && FormatText(ReadMcmeta(dirs, datapack).value).Ok?
      && BaseName(datapack).Some?
      && var zipName := ZipName(name, BaseName(datapack).value, FormatText(ReadMcmeta(dirs, datapack).value).value);
      && zipName.Ok?
      && var output := OutputDir(outputDir, path, cwd, datapack);
      && (r.value == Cancelled <==> PathExists(dirs, output + [zipName.value]) && !force && !confirm)
      && (r.value.Created? ==>
            && !CreateFails(dirs, output, zipName.value)
            && var walked := Walked(dirs[datapack], datapack, output, zipName.value);
            r.value == Created(output + [zipName.value], Archived(walked, []),
                               Files(dirs[datapack]), Files(walked)))
    ensures r.Err? && r.error.BadZipName? ==> name == Some(r.error.name) && !EndsWith(r.error.name, ".zip")
    ensures SourceDir(path, inputDir, cwd).Ok? ==>
      var datapack := SourceDir(path, inputDir, cwd).value;
      (ReadMcmeta(dirs, datapack).Ok? && FormatText(ReadMcmeta(dirs, datapack).value).Ok?
       && BaseName(datapack).Some?) ==>
        var zipName := ZipName(name, BaseName(datapack).value, FormatText(ReadMcmeta(dirs, datapack).value).value);
        var output := OutputDir(outputDir, path, cwd, datapack);
        var cancelled := zipName.Ok? && PathExists(dirs, output + [zipName.value]) && !force && !confirm;
        && (zipName.Err? ==> r == Err(zipName.error))
        && (cancelled ==> r == Ok(Cancelled))
        && (zipName.Ok? && !cancelled && CreateFails(dirs, output, zipName.value) ==> r == Err(CreateFailed))
        && (zipName.Ok? && !cancelled && !CreateFails(dirs, output, zipName.value) ==>
              var walked := Walked(dirs[datapack], datapack, output, zipName.value);
              r == Ok(Created(output + [zipName.value], Archived(walked, []), Files(dirs[datapack]), Files(walked))))
  {
    var datapack :- SourceDir(path, inputDir, cwd);
    var mcmeta :- ReadMcmeta(dirs, datapack);
    var format :- FormatText(mcmeta);
    var dirName := BaseName(datapack);
    if dirName.None? {
      return Err(InvalidDatapackPath);
    }
    var zipName :- ZipName(name, dirName.value, format);
    var output := OutputDir(outputDir, path, cwd, datapack);
    if PathExists(dirs, output + [zipName]) && !force {
      if !confirm {
        return Ok(Cancelled);
      }
    }
    r := WriteArchive(dirs, datapack, output, zipName);
  }

  /** A datapack of format 48 gets the last version of that format in its
      default archive name, whether the format is written as a number or
      as text. */
  lemma DefaultNameOfKnownFormat(dirName: string, text: string)
    requires text == "48"
    ensures ZipName(None, dirName, text) == Ok(dirName + "_1.21.1.zip")
  {
    assert DecimalString(48) == text;
    assert FindFormat(PackFormats.PackFormats, text) == Some(48);
    var versions := VersionsOfText(text);
    assert versions == Some(["1.21", "1.21.1"]);
    assert DefaultArchiveName(dirName, versions) == dirName + "_" + "1.21.1" + ".zip";
    assert dirName + "_" + "1.21.1" + ".zip" == dirName + "_1.21.1.zip";
  }

  /** An unknown format leaves the directory name alone. */
  lemma DefaultNameOfUnknownFormat(dirName: string, text: string)
    requires text == "7"
    ensures ZipName(None, dirName, text) == Ok(dirName + ".zip")
  {
    assert DecimalString(48) != text && DecimalString(57) != text && DecimalString(61) != text;
    assert FindFormat(PackFormats.PackFormats, text) == None;
  }
}
