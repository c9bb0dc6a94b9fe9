/** The `create` command (src/commands/create.rs): the argument checks run
    makes before any prompt, the starter-folder checks of collect_settings,
    the pack.mcmeta it writes, and create_pack, which lays the new datapack
    out on the file system. Prompt answers are parameters. */
module Create {
  import opened Wrappers
  import opened Text
  import opened Json
  import opened PackFormats
  import opened Elements
  import opened FileSystem
  import Info

  /** Why `create` stops. */
  datatype CreateError =
    | InvalidFormat(format: u8)
    | NoFormatsSelected
    | InvalidFolder(folder: string)
    | IconMissing(icon: Path)
    | IconNotPng
    | Io(cause: FsError)

  /** The index of the first element of `s` that `p` holds of. */
  function FirstMatch<T>(s: seq<T>, p: T -> bool): (r: Option<nat>)
    ensures r.None? <==> forall i :: 0 <= i < |s| ==> !p(s[i])
    ensures r.Some? ==> r.value < |s| && p(s[r.value]) && forall i :: 0 <= i < r.value ==> !p(s[i])
    decreases |s|
  {
    if |s| == 0 then None
    else if p(s[0]) then Some(0)
    else
      var rest := FirstMatch(s[1..], p);
      assert forall i :: 0 < i < |s| ==> s[i] == s[1..][i - 1];
      match rest
      case None => None
      case Some(i) => Some(i + 1)
  }

  /** The first position of `s` whose element `p` holds of, found by the
      left-to-right scan with an early exit of run's and collect_settings'
      `for` loops. */
  method FindFirst<T>(s: seq<T>, p: T -> bool) returns (r: Option<nat>)
    ensures r == FirstMatch(s, p)
  {
    for i := 0 to |s|
      invariant forall j :: 0 <= j < i ==> !p(s[j])
    {
      if p(s[i]) {
        return Some(i);
      }
    }
    return None;
  }

  // ---------------------------------------------------------------------
  // run: the checks made before any prompt

  predicate UnknownFormat(f: u8) {
    !IsValidFormat(f)
  }

  /** The --format check of run: every given format must be in the table;
      the first one that is not is reported. */
  method CheckFormats(formats: Option<seq<u8>>) returns (r: Result<(), CreateError>)
    ensures formats.None? ==> r.Ok?
    ensures formats.Some? ==> (r.Ok? <==> forall f :: f in formats.value ==> IsValidFormat(f))
    ensures formats.Some? && FirstMatch(formats.value, UnknownFormat).Some? ==>
      r == Err(InvalidFormat(formats.value[FirstMatch(formats.value, UnknownFormat).value]))
  {
    if formats.None? {
      return Ok(());
    }
    var bad := FindFirst(formats.value, UnknownFormat);
    if bad.Some? {
      return Err(InvalidFormat(formats.value[bad.value]));
    }
    return Ok(());
  }

  /** The minecraft tags run passes on: with --minecraft, "load.mcfunction"
      when --load is given, then "tick.mcfunction" when --tick is;
      without it, none, and collect_settings decides. */
  function MinecraftTags(minecraft: bool, load: bool, tick: bool): (r: Option<seq<string>>)
    ensures r.Some? <==> minecraft
    ensures r.Some? ==> |r.value| == (if load then 1 else 0) + (if tick then 1 else 0)
    ensures r.Some? ==> ("load.mcfunction" in r.value <==> load) && ("tick.mcfunction" in r.value <==> tick)
    ensures r.Some? && load ==> r.value[0] == "load.mcfunction"
  {
    if !minecraft then None
    else
      var tags := if load then ["load.mcfunction"] else [];
      Some(if tick then tags + ["tick.mcfunction"] else tags)
  }

  // ---------------------------------------------------------------------
  // collect_settings: format selection and starter folders

  /** The items a multi-select prompt returns, by the indices picked. */
  function Picked<T>(options: seq<T>, picks: seq<nat>): (r: seq<T>)
    requires forall k :: 0 <= k < |picks| ==> picks[k] < |options|
    ensures |r| == |picks|
    ensures forall k :: 0 <= k < |r| ==> r[k] == options[picks[k]]
  {
    seq(|picks|, k requires 0 <= k < |picks| => options[picks[k]])
  }

  /** The formats chosen at the prompt; choosing none is an error. */
  function PromptedFormats(picks: seq<nat>): (r: Result<seq<u8>, CreateError>)
    requires forall k :: 0 <= k < |picks| ==> picks[k] < |PackFormats.PackFormats|
    ensures r.Err? <==> |picks| == 0
    ensures r.Err? ==> r.error == NoFormatsSelected
    ensures r.Ok? ==> |r.value| == |picks| && forall f :: f in r.value ==> IsValidFormat(f)
    ensures r.Ok? ==> forall k :: 0 <= k < |picks| ==> r.value[k] == PackFormats.PackFormats[picks[k]]
  {
    var formats := Picked(PackFormats.PackFormats, picks);
    if |formats| == 0 then Err(NoFormatsSelected) else Ok(formats)
  }

  /** The options of the starter-folder prompt. */
  const FolderOptions: seq<string> :=
    ["function", "advancement", "tags", "recipe", "loot_table", "predicate"]

  predicate UnknownFolder(folder: string) {
    !IsValidElementType(folder)
  }

  /** The starter-folder check: every folder must be an element type; the
      first that is not is reported. */
  method CheckFolders(folders: seq<string>) returns (r: Result<seq<string>, CreateError>)
    ensures r.Ok? <==> forall f :: f in folders ==> IsValidElementType(f)
    ensures r.Ok? ==> r.value == folders
    ensures FirstMatch(folders, UnknownFolder).Some? ==>
      r == Err(InvalidFolder(folders[FirstMatch(folders, UnknownFolder).value]))
  {
    var bad := FindFirst(folders, UnknownFolder);
    if bad.Some? {
      return Err(InvalidFolder(folders[bad.value]));
    }
    return Ok(folders);
  }

  /** The starter folders of collect_settings: none when skipped, else the
      given list or the prompt's picks, checked either way. The custom
      namespace is always set by then, so the prompt is always reached
      without a list. */
  method StarterFolders(skip: bool, given: Option<seq<string>>, picks: seq<nat>)
    returns (r: Result<seq<string>, CreateError>)
    requires forall k :: 0 <= k < |picks| ==> picks[k] < |FolderOptions|
    ensures skip ==> r == Ok([])
    ensures !skip ==>
      var folders := if given.Some? then given.value else Picked(FolderOptions, picks);
      && (r.Ok? <==> forall f :: f in folders ==> IsValidElementType(f))
      && (r.Ok? ==> r.value == folders)
      && (FirstMatch(folders, UnknownFolder).Some? ==>
            r == Err(InvalidFolder(folders[FirstMatch(folders, UnknownFolder).value])))
  {
    if skip {
      return Ok([]);
    }
    var folders := if given.Some? then given.value else Picked(FolderOptions, picks);
    r := CheckFolders(folders);
  }

  /** "tags" is not an element type: the type is "tag". */
  lemma TagsIsNoElementType(t: string)
    requires t == "tags"
    ensures !IsValidElementType(t)
  {
    assert t !in ElementNames;
    ValidIffNamed(t);
  }

  /** Every prompt option but "tags" is an element type. */
  lemma FolderOptionValidity(k: nat)
    requires k < |FolderOptions|
    ensures IsValidElementType(FolderOptions[k]) <==> k != 2
  {
    var option := FolderOptions[k];
    if k == 2 {
      TagsIsNoElementType(option);
    } else {
      assert option in ElementNames;
      ValidIffNamed(option);
    }
  }

  /** When `p` holds of exactly one option, the picks contain a match
      exactly when they pick that option, and the first match is it. */
  lemma {:induction false} FirstMatchOfPicked<T>(options: seq<T>, picks: seq<nat>, p: T -> bool, bad: nat)
    requires forall k :: 0 <= k < |picks| ==> picks[k] < |options|
    requires bad < |options|
    requires forall k :: 0 <= k < |options| ==> (p(options[k]) <==> k == bad)
    ensures FirstMatch(Picked(options, picks), p).None? <==> bad !in picks
    ensures bad in picks ==> Picked(options, picks)[FirstMatch(Picked(options, picks), p).value] == options[bad]
  {
    var chosen := Picked(options, picks);
    assert forall k :: 0 <= k < |chosen| ==> (p(chosen[k]) <==> picks[k] == bad);
    if bad in picks {
      var k :| 0 <= k < |picks| && picks[k] == bad;
      assert p(chosen[k]);
    }
  }

  /** Picking "tags" at the starter-folder prompt always fails the check,
      and any choice without it passes. */
  lemma PromptedTagsAlwaysFail(picks: seq<nat>)
    requires forall k :: 0 <= k < |picks| ==> picks[k] < |FolderOptions|
    ensures FirstMatch(Picked(FolderOptions, picks), UnknownFolder).None? <==> 2 !in picks
    ensures FirstMatch(Picked(FolderOptions, picks), UnknownFolder).Some? ==>
      Picked(FolderOptions, picks)[FirstMatch(Picked(FolderOptions, picks), UnknownFolder).value] == "tags"
  {
    assert FolderOptions[2] == "tags";
    forall k | 0 <= k < |FolderOptions|
      ensures UnknownFolder(FolderOptions[k]) <==> k == 2
    {
      FolderOptionValidity(k);
    }
    FirstMatchOfPicked(FolderOptions, picks, UnknownFolder, 2);
  }

  // ---------------------------------------------------------------------
  // The manifest create_pack writes

  /** The largest element. */
  function SeqMax(s: seq<u8>): (m: u8)
    requires |s| > 0
    ensures m in s && forall x :: x in s ==> x <= m
  {
    if |s| == 1 then s[0]
    else
      var front := SeqMax(s[..|s| - 1]);
      assert forall x :: x in s ==> x in s[..|s| - 1] || x == s[|s| - 1];
      if s[|s| - 1] > front then s[|s| - 1] else front
  }

  /** The smallest element. */
  function SeqMin(s: seq<u8>): (m: u8)
    requires |s| > 0
    ensures m in s && forall x :: x in s ==> m <= x
  {
    if |s| == 1 then s[0]
    else
      var front := SeqMin(s[..|s| - 1]);
      assert forall x :: x in s ==> x in s[..|s| - 1] || x == s[|s| - 1];
      if s[|s| - 1] < front then s[|s| - 1] else front
  }

  /** The set of a list's elements (a HashSet built from it). */
  function FormatSet(s: seq<u8>): (r: set<u8>)
    ensures forall f :: f in r <==> f in s
  {
    set f | f in s
  }

  /** SupportedFormatsType: an inclusive range or a list of formats. */
  datatype SupportedFormats = Range(min: u8, max: u8) | List(formats: seq<u8>)

  /** The supported_formats of the manifest: none for a single format; the
      range from the smallest to the largest when the selection is exactly
      the known formats of that range and there are at least three of them;
      else the selection as given. */
  function SupportedFormatsOf(formats: seq<u8>): (r: Option<SupportedFormats>)
    requires |formats| > 0
    ensures r.None? <==> |formats| == 1
    ensures r.Some? && r.value.Range? ==>
      var known := GetFormatsInRange(SeqMin(formats), SeqMax(formats));
      && r.value == Range(SeqMin(formats), SeqMax(formats))
      && (forall f :: f in formats <==> f in known)
      && |known| >= 3
    ensures r.Some? && r.value.List? ==>
      var known := GetFormatsInRange(SeqMin(formats), SeqMax(formats));
      && r.value.formats == formats
      && !((forall f :: f in formats <==> f in known) && |known| >= 3)
  {
    if |formats| == 1 then None
    else
      var lo := SeqMin(formats);
      var hi := SeqMax(formats);
      var known := GetFormatsInRange(lo, hi);
      if FormatSet(formats) == FormatSet(known) && |known| >= 3 then
        Some(Range(lo, hi))
      else
        assert (forall f :: f in formats <==> f in known) ==> FormatSet(formats) == FormatSet(known);
        Some(List(formats))
  }

  /** With the three known formats, a selection of valid formats is written
      as a range exactly when it holds all three. */
  lemma RangeOnlyForWholeTable(formats: seq<u8>)
    requires |formats| > 1
    requires forall f :: f in formats ==> IsValidFormat(f)
    ensures SupportedFormatsOf(formats).value.Range? <==> (48 in formats && 57 in formats && 61 in formats)
  {
    WholeTableIsRange(formats);
    RangeIsWholeTable(formats);
  }

  lemma WholeTableIsRange(formats: seq<u8>)
    requires |formats| > 1
    requires forall f :: f in formats ==> IsValidFormat(f)
    ensures 48 in formats && 57 in formats && 61 in formats ==> SupportedFormatsOf(formats).value.Range?
  {
    if 48 in formats && 57 in formats && 61 in formats {
      var lo := SeqMin(formats);
      var hi := SeqMax(formats);
      assert lo == 48 && hi == 61;
      var known := GetFormatsInRange(lo, hi);
      assert known == FilterRange(PackFormats.PackFormats, lo, hi);
      assert forall f :: f in known <==> f in PackFormats.PackFormats;
      assert 48 in known && 57 in known && 61 in known;
    }
  }

  lemma RangeIsWholeTable(formats: seq<u8>)
    requires |formats| > 1
    requires forall f :: f in formats ==> IsValidFormat(f)
    ensures SupportedFormatsOf(formats).value.Range? ==> 48 in formats && 57 in formats && 61 in formats
  {
    if SupportedFormatsOf(formats).value.Range? {
      var known := GetFormatsInRange(SeqMin(formats), SeqMax(formats));
      assert known == FilterRange(PackFormats.PackFormats, SeqMin(formats), SeqMax(formats));
      assert |known| >= 3;
      assert forall f :: f in known ==> f in PackFormats.PackFormats;
      assert 48 in known && 57 in known && 61 in known;
    }
  }

  /** The JSON of a supported_formats value: an object with
      min_inclusive and max_inclusive, or an array of numbers. */
  function SupportedJson(sf: SupportedFormats): (j: Json)
    ensures sf.Range? ==> j.Obj? && j.fields.Keys == {"min_inclusive", "max_inclusive"}
    ensures sf.List? ==> j.Arr? && |j.items| == |sf.formats|
  {
    match sf
    case Range(lo, hi) => Obj(map["min_inclusive" := Num(Int(lo)), "max_inclusive" := Num(Int(hi))])
    case List(formats) => Arr(seq(|formats|, k requires 0 <= k < |formats| => Num(Int(formats[k]))))
  }

  /** The supported_formats field, when there is one. */
  function SupportedJsonOf(formats: seq<u8>): (r: Option<Json>)
    requires |formats| > 0
    ensures r.Some? <==> |formats| > 1
  {
    match SupportedFormatsOf(formats)
    case None => None
    case Some(sf) => Some(SupportedJson(sf))
  }

  /** PackMcmeta: {"pack": {"description", "pack_format": the largest
      selected format, and "supported_formats" unless it is absent}}. */
  function ManifestJson(description: string, formats: seq<u8>): (j: Json)
    requires |formats| > 0
    ensures Get(j, "pack").Some?
    ensures var pack := Get(j, "pack").value;
      && Get(pack, "description") == Some(Str(description))
      && Get(pack, "pack_format") == Some(Num(Int(SeqMax(formats))))
      && Get(pack, "supported_formats") == SupportedJsonOf(formats)
  {
    var fields := map["description" := Str(description), "pack_format" := Num(Int(SeqMax(formats)))];
    var sf := SupportedFormatsOf(formats);
    var pack := if sf.Some? then fields["supported_formats" := SupportedJson(sf.value)] else fields;
    FieldNamesDistinct("description", "pack_format", "supported_formats");
    assert pack["description"] == Str(description);
    assert pack["pack_format"] == Num(Int(SeqMax(formats)));
    assert Get(Obj(pack), "supported_formats") == SupportedJsonOf(formats);
    Obj(map["pack" := Obj(pack)])
  }

  /** The three keys of the pack object differ. */
  lemma FieldNamesDistinct(a: string, b: string, c: string)
    requires a == "description" && b == "pack_format" && c == "supported_formats"
    ensures a != b && b != c && a != c
  {
    assert a[0] != b[0];
  }

  /** A range object reads back as every format between its bounds. */
  lemma RangeReadsBack(lo: u8, hi: u8, max: u8)
    ensures forall f: u8 :: f in Info.ParseSupportedFormats(max, Some(SupportedJson(Range(lo, hi)))) <==> lo <= f <= hi
  {
    var sf := SupportedJson(Range(lo, hi));
    assert Info.U64Field(sf, "min_inclusive") == Some(lo);
    assert Info.U64Field(sf, "max_inclusive") == Some(hi);
  }

  /** An array reads back as the list it was written from. */
  lemma ListReadsBack(formats: seq<u8>, max: u8)
    ensures Info.ParseSupportedFormats(max, Some(SupportedJson(List(formats)))) == formats
  {
    var sf := SupportedJson(List(formats));
    var parsed := Info.ParseSupportedFormats(max, Some(sf));
    forall k | 0 <= k < |formats| ensures parsed[k] == formats[k] {
      assert Info.FormatOrZero(sf.items[k]) == formats[k];
    }
  }

  /** Reading the supported_formats field back as `info` does: the
      known formats it lists are exactly the selected ones. */
  lemma SupportedFormatsRoundTrip(formats: seq<u8>)
    requires |formats| > 0
    requires forall f :: f in formats ==> IsValidFormat(f)
    ensures var parsed := Info.ParseSupportedFormats(SeqMax(formats), SupportedJsonOf(formats));
      forall f :: f in parsed && IsValidFormat(f) <==> f in formats
  {
    var max := SeqMax(formats);
    match SupportedFormatsOf(formats)
    case None =>
      assert formats == [formats[0]];
    case Some(Range(lo, hi)) =>
      RangeReadsBack(lo, hi, max);
    case Some(List(fs)) =>
      ListReadsBack(fs, max);
  }

  /** What `info` reads back from the manifest `create` writes: the pack
      format is the largest selected format, and the supported formats it
      lists that are known are exactly the selected ones. */
  lemma ManifestRoundTrip(description: string, formats: seq<u8>)
    requires |formats| > 0
    requires forall f :: f in formats ==> IsValidFormat(f)
    ensures var m := Info.ManifestOf(Pretty(ManifestJson(description, formats)));
      && m.Ok?
      && m.value.packFormat == SeqMax(formats)
      && (forall f :: f in m.value.supportedFormats && IsValidFormat(f) <==> f in formats)
  {
    var j := ManifestJson(description, formats);
    ManifestPackFormat(j, SeqMax(formats));
    ManifestSupported(j, SeqMax(formats), SupportedJsonOf(formats));
    SupportedFormatsRoundTrip(formats);
  }

  /** A pack_format holding a byte is read back as that byte. */
  lemma ManifestPackFormat(j: Json, max: u8)
    requires Get(j, "pack").Some? && Get(Get(j, "pack").value, "pack_format") == Some(Num(Int(max as int)))
    ensures Info.PackFormatOf(j) == Ok(max)
  {
    assert AsU64(Num(Int(max as int))) == Some(max as nat);
  }

  /** The supported formats read back are parsed from the value written. */
  lemma ManifestSupported(j: Json, max: u8, supported: Option<Json>)
    requires Info.PackFormatOf(j) == Ok(max)
    requires Get(Get(j, "pack").value, "supported_formats") == supported
    ensures Info.ManifestOf(Pretty(j)).Ok?
    ensures Info.ManifestOf(Pretty(j)).value.supportedFormats == Info.ParseSupportedFormats(max, supported)
  {
  }

  // ---------------------------------------------------------------------
  // create_pack

  /** PackSettings: what collect_settings gathered. */
  datatype PackSettings = PackSettings(
    directory: Path,
    name: string,
    description: string,
    icon: Option<Path>,
    formats: seq<u8>,
    includeMinecraft: bool,
    minecraftTags: seq<string>,
    namespace: Option<string>,
    folders: seq<string>)

  datatype Outcome = Cancelled | Created

  /** The overwrite step: whatever stands at the pack directory is removed,
      then the directory is created with its missing ancestors. It fails
      exactly when a file stands at the directory or on its way, and leaves
      the directory empty and everything outside it as it was. */
  function Reset(fs: Fs, dir: Path): (r: Result<Fs, FsError>)
    requires Valid(fs) && |dir| > 0
    ensures r.Ok? <==> !FileOnWay(fs, dir)
    ensures r.Ok? ==> Valid(r.value) && IsDir(r.value, dir)
    ensures r.Ok? ==> NothingBelow(r.value, dir)
    ensures r.Ok? ==> forall q :: q in fs && !IsPrefix(dir, q) ==> q in r.value && r.value[q] == fs[q]
    ensures r.Ok? ==> forall q :: q in r.value && q !in fs ==> IsPrefix(q, dir)
  {
    assert dir[..|dir|] == dir;
    if dir in fs then
      match RemoveDirAll(fs, dir)
      case Err(e) => Err(e)
      case Ok(cleared) =>
        NoFileOnWayToDir(fs, dir);
        ClearedWay(fs, dir, cleared);
        CreateDirAll(cleared, dir)
    else
      assert forall q :: q in fs ==> !IsPrefix(dir, q) by {
        forall q | q in fs ensures !IsPrefix(dir, q) {
          NothingBelowMissing(fs, dir, q);
        }
      }
      CreateDirAll(fs, dir)
  }

  /** Once a directory and everything below it are removed, nothing on its
      way is a file. */
  lemma ClearedWay(fs: Fs, dir: Path, cleared: Fs)
    requires Valid(fs) && IsDir(fs, dir)
    requires forall q :: q in cleared <==> q in fs && !IsPrefix(dir, q)
    requires forall q :: q in cleared ==> cleared[q] == fs[q]
    ensures !FileOnWay(cleared, dir)
  {
    NoFileOnWayToDir(fs, dir);
    forall k | 0 <= k <= |dir|
      ensures !IsFile(cleared, dir[..k])
    {
      assert !IsFile(fs, dir[..k]);
    }
  }

  /** The icon must have the extension "png", in any case; a path with no
      file name or no extension has the empty extension. */
  predicate IsPng(icon: Path) {
    |icon| > 0 && AsciiLower(FileExtension(icon[|icon| - 1]).GetOr("")) == "png"
  }

  /** The content of a new tag file: {"values": []}. */
  const EmptyTag: Json := Obj(map["values" := Arr([])])

  /** The file of a minecraft tag: its name without ".mcfunction", with
      ".json". */
  function TagFileName(tag: string): (name: string)
    ensures EndsWith(tag, ".mcfunction") ==> name == tag[..|tag| - 11] + ".json"
    ensures !EndsWith(tag, ".mcfunction") ==> name == tag + ".json"
  {
    StripSuffix(tag, ".mcfunction").GetOr(tag) + ".json"
  }

  /** The starter file of a folder, when it has one: main.mcfunction for
      "function", <folder>.json for advancement, recipe, loot_table and
      predicate; other folders stay empty. */
  function StarterFile(folder: string): (r: Option<string>)
    ensures r.Some? <==> folder in {"function", "advancement", "recipe", "loot_table", "predicate"}
    ensures folder == "function" ==> r == Some("main.mcfunction")
    ensures r.Some? && folder != "function" ==> r.value == folder + ".json"
  {
    if folder == "function" then Some("main.mcfunction")
    else if folder in {"advancement", "recipe", "loot_table", "predicate"} then Some(folder + ".json")
    else None
  }

  /** data/minecraft/tags/function under the pack directory. */
  function TagsDir(dir: Path): (r: Path)
    ensures |r| == |dir| + 4 && r[..|dir| + 1] == dir + ["data"]
  {
    dir + ["data", "minecraft", "tags", "function"]
  }

  /** data/<namespace> under the pack directory. */
  function NamespaceDir(dir: Path, ns: string): (r: Path)
    ensures |r| == |dir| + 2 && r[..|dir| + 1] == dir + ["data"]
  {
    dir + ["data", ns]
  }

  /** A path the tags step may add: a directory on the way to the tags
      directory beyond data, or the file of one of the tags. */
  predicate TagPath(dir: Path, tags: seq<string>, q: Path) {
    || (IsPrefix(q, TagsDir(dir)) && |q| > |dir| + 1)
    || exists t :: t in tags && q == TagFile(dir, t)
  }

  /** A path the namespace step may add: the namespace directory, a
      folder in it, or the starter file of a folder. */
  predicate NamespacePath(dir: Path, ns: string, folders: seq<string>, q: Path) {
    || q == NamespaceDir(dir, ns)
    || exists f :: f in folders && (q == FolderDir(dir, ns, f)
         || (StarterFile(f).Some? && q == StarterPath(dir, ns, f)))
  }

  /** Below `base` there is nothing but `base`. */
  predicate NothingBelow(m: Fs, base: Path) {
    forall q :: q in m && IsPrefix(base, q) ==> q == base
  }

  /** Nothing on the way from an existing directory `base` down to p is a
      file when no path strictly between them is one. */
  lemma NoFileOnWayBelow(m: Fs, base: Path, p: Path)
    requires Valid(m) && IsDir(m, base) && IsPrefix(base, p)
    requires forall k :: |base| < k <= |p| ==> !IsFile(m, p[..k])
    ensures !FileOnWay(m, p)
  {
    NoFileOnWayToDir(m, base);
    forall k | 0 <= k <= |base|
      ensures p[..k] == base[..k]
    {
    }
  }

  /** The path of the file of one tag. */
  function TagFile(dir: Path, tag: string): (r: Path)
    ensures |r| == |dir| + 5 && r[..|r| - 1] == TagsDir(dir)
  {
    TagsDir(dir) + [TagFileName(tag)]
  }

  /** The tags step's frame: the entries of `fs` stay, only tag files
      change, only tag paths are added, and the directories added are the
      ones on the way to the tags directory. */
  predicate TagsFrame(fs: Fs, dir: Path, tags: seq<string>, m: Fs) {
    && (forall q :: q in fs ==> q in m)
    && (forall q :: q in fs && m[q] != fs[q] ==> exists t :: t in tags && q == TagFile(dir, t))
    && (forall q :: q in m && q !in fs ==> TagPath(dir, tags, q))
    && (forall q :: q in m && q !in fs ==> (m[q] == Directory <==> IsPrefix(q, TagsDir(dir))))
  }

  /** The first `i` tags have their files. */
  predicate TagsWritten(dir: Path, tags: seq<string>, i: nat, m: Fs)
    requires i <= |tags|
  {
    forall j :: 0 <= j < i ==>
      TagFile(dir, tags[j]) in m && m[TagFile(dir, tags[j])] == RegularFile(Pretty(EmptyTag))
  }

  /** What the tags step keeps true. */
  predicate TagsDone(fs: Fs, dir: Path, tags: seq<string>, i: nat, m: Fs)
    requires i <= |tags|
  {
    Valid(m) && IsDir(m, TagsDir(dir)) && TagsFrame(fs, dir, tags, m) && TagsWritten(dir, tags, i, m)
  }

  /** Creating the tags directory starts the tags step. */
  lemma TagsStart(fs: Fs, dir: Path, tags: seq<string>, m: Fs)
    requires Valid(fs) && IsDir(fs, dir + ["data"])
    requires Valid(m) && IsDir(m, TagsDir(dir))
    requires forall q :: q in fs ==> q in m && m[q] == fs[q]
    requires forall q :: q in m && q !in fs ==> IsPrefix(q, TagsDir(dir)) && m[q] == Directory
    ensures TagsDone(fs, dir, tags, 0, m)
  {
    GrownBelow(fs, dir + ["data"], TagsDir(dir), m);
  }

  /** With nothing below data, no file stands on the way to the tags
      directory. */
  lemma TagsDirFree(fs: Fs, dir: Path)
    requires Valid(fs) && IsDir(fs, dir + ["data"]) && NothingBelow(fs, dir + ["data"])
    ensures !FileOnWay(fs, TagsDir(dir))
  {
    forall k | |dir| + 1 < k <= |dir| + 4
      ensures !IsFile(fs, TagsDir(dir)[..k])
    {
      assert IsPrefix(dir + ["data"], TagsDir(dir)[..k]);
    }
    NoFileOnWayBelow(fs, dir + ["data"], TagsDir(dir));
  }

  /** With nothing below data at the start, no tag file is a directory. */
  lemma TagFileFree(fs: Fs, dir: Path, tags: seq<string>, i: nat, m: Fs)
    requires i < |tags| && TagsDone(fs, dir, tags, i, m) && NothingBelow(fs, dir + ["data"])
    ensures !IsDir(m, TagFile(dir, tags[i]))
  {
    var file := TagFile(dir, tags[i]);
    assert IsPrefix(dir + ["data"], file);
  }

  /** Writing the file of tag i keeps the frame. */
  lemma TagsStepFrame(fs: Fs, dir: Path, tags: seq<string>, i: nat, m: Fs)
    requires i < |tags| && TagsFrame(fs, dir, tags, m)
    ensures TagsFrame(fs, dir, tags, m[TagFile(dir, tags[i]) := RegularFile(Pretty(EmptyTag))])
  {
    var file := TagFile(dir, tags[i]);
    assert TagPath(dir, tags, file);
    assert !IsPrefix(file, TagsDir(dir));
  }

  /** Writing the file of tag i adds it to the files written. */
  lemma TagsStepWritten(dir: Path, tags: seq<string>, i: nat, m: Fs)
    requires i < |tags| && TagsWritten(dir, tags, i, m)
    ensures TagsWritten(dir, tags, i + 1, m[TagFile(dir, tags[i]) := RegularFile(Pretty(EmptyTag))])
  {
    var file := TagFile(dir, tags[i]);
    var next := m[file := RegularFile(Pretty(EmptyTag))];
    forall j | 0 <= j <= i
      ensures TagFile(dir, tags[j]) in next
      ensures next[TagFile(dir, tags[j])] == RegularFile(Pretty(EmptyTag))
    {
      var other := TagFile(dir, tags[j]);
      if other != file {
        assert next[other] == m[other];
      }
    }
  }

  /** The tags step: data/minecraft/tags/function, then {"values": []} in
      the file of each tag, in order. On failure the files written so far
      stay; with nothing below data at the start it does not fail. */
  method WriteTags(fs: Fs, dir: Path, tags: seq<string>) returns (after: Fs, err: Option<FsError>)
    requires Valid(fs) && IsDir(fs, dir + ["data"])
    ensures err.Some? ==> Valid(after)
    ensures err.Some? ==> TagsDone(fs, dir, tags, 0, after) || after == fs
    ensures err.None? ==> TagsDone(fs, dir, tags, |tags|, after)
    ensures NothingBelow(fs, dir + ["data"]) ==> err.None?
  {
    var tagsDir := TagsDir(dir);
    if NothingBelow(fs, dir + ["data"]) {
      TagsDirFree(fs, dir);
    }
    var made := CreateDirAll(fs, tagsDir);
    if made.Err? {
      return fs, Some(made.error);
    }
    after := made.value;
    TagsStart(fs, dir, tags, after);
    for i := 0 to |tags|
      invariant TagsDone(fs, dir, tags, i, after)
    {
      var failed;
      after, failed := WriteTag(fs, dir, tags, i, after);
      if failed.Some? {
        return after, failed;
      }
    }
    return after, None;
  }

  /** One turn of the tags loop of create_pack: the empty tag file of
      tags[i]. */
  method WriteTag(fs: Fs, dir: Path, tags: seq<string>, i: nat, m: Fs) returns (after: Fs, err: Option<FsError>)
    requires i < |tags| && TagsDone(fs, dir, tags, i, m)
    ensures err.Some? ==> after == m
    ensures err.None? ==> TagsDone(fs, dir, tags, i + 1, after)
    ensures NothingBelow(fs, dir + ["data"]) ==> err.None?
  {
    var file := TagFile(dir, tags[i]);
    if NothingBelow(fs, dir + ["data"]) {
      TagFileFree(fs, dir, tags, i, m);
    }
    var written := Write(m, file, Pretty(EmptyTag));
    if written.Err? {
      return m, Some(written.error);
    }
    TagsStepFrame(fs, dir, tags, i, m);
    TagsStepWritten(dir, tags, i, m);
    return written.value, None;
  }

  /** data/<namespace>/<folder>. */
  function FolderDir(dir: Path, ns: string, folder: string): (r: Path)
    ensures |r| == |dir| + 3 && r[|dir| + 2] == folder
    ensures IsPrefix(NamespaceDir(dir, ns), r)
  {
    NamespaceDir(dir, ns) + [folder]
  }

  /** The starter file of a folder, inside it. */
  function StarterPath(dir: Path, ns: string, folder: string): (r: Path)
    requires StarterFile(folder).Some?
    ensures |r| == |dir| + 4 && r[|dir| + 2] == folder
    ensures r[..|r| - 1] == FolderDir(dir, ns, folder)
  {
    FolderDir(dir, ns, folder) + [StarterFile(folder).value]
  }

  /** The namespace step's frame: the entries of `fs` stay, only starter
      files change and stay files, only namespace paths are added, and the
      directories added are the ones above the starter files. */
  predicate NamespaceFrame(fs: Fs, dir: Path, ns: string, folders: seq<string>, m: Fs) {
    NamespaceKept(fs, dir, ns, folders, m) && NamespaceAdded(fs, dir, ns, folders, m)
  }

  predicate NamespaceKept(fs: Fs, dir: Path, ns: string, folders: seq<string>, m: Fs) {
    && (forall q :: q in fs ==> q in m)
    && (forall q :: q in fs && m[q] != fs[q] ==>
          m[q].RegularFile? && exists f :: f in folders && StarterFile(f).Some? && q == StarterPath(dir, ns, f))
  }

  predicate NamespaceAdded(fs: Fs, dir: Path, ns: string, folders: seq<string>, m: Fs) {
    AddedPaths(fs, dir, ns, folders, m) && AddedDirs(fs, dir, m)
  }

  predicate AddedPaths(fs: Fs, dir: Path, ns: string, folders: seq<string>, m: Fs) {
    forall q :: q in m && q !in fs ==> NamespacePath(dir, ns, folders, q)
  }

  predicate AddedDirs(fs: Fs, dir: Path, m: Fs) {
    forall q :: q in m && q !in fs ==> (m[q] == Directory <==> |q| < |dir| + 4)
  }

  /** Folder `f` exists, with its starter file. */
  predicate FolderWritten(dir: Path, ns: string, f: string, m: Fs) {
    && IsDir(m, FolderDir(dir, ns, f))
    && (StarterFile(f).Some? ==>
          StarterPath(dir, ns, f) in m && m[StarterPath(dir, ns, f)] == RegularFile(GetSampleContent(f)))
  }

  /** The first `i` folders exist, with their starter files. */
  predicate FoldersWritten(dir: Path, ns: string, folders: seq<string>, i: nat, m: Fs)
    requires i <= |folders|
  {
    forall j :: 0 <= j < i ==> FolderWritten(dir, ns, folders[j], m)
  }

  /** What the namespace step keeps true. */
  predicate NamespaceDone(fs: Fs, dir: Path, ns: string, folders: seq<string>, i: nat, m: Fs)
    requires i <= |folders|
  {
    && Valid(m) && IsDir(m, NamespaceDir(dir, ns))
    && NamespaceFrame(fs, dir, ns, folders, m)
    && FoldersWritten(dir, ns, folders, i, m)
  }

  /** Below data, every directory is on the way to the tags directory and
      every file lies deeper than a starter file: what the tags step
      leaves behind in a fresh pack. */
  predicate Roomy(m: Fs, dir: Path) {
    forall q :: q in m && IsPrefix(dir + ["data"], q) && |q| > |dir| + 1 ==>
      if m[q] == Directory then IsPrefix(q, TagsDir(dir)) else |q| > |dir| + 4
  }

  /** Creating the namespace directory starts the namespace step. */
  lemma NamespaceStart(fs: Fs, dir: Path, ns: string, folders: seq<string>, m: Fs)
    requires Valid(fs) && IsDir(fs, dir + ["data"])
    requires Valid(m) && IsDir(m, NamespaceDir(dir, ns))
    requires forall q :: q in fs ==> q in m && m[q] == fs[q]
    requires forall q :: q in m && q !in fs ==> IsPrefix(q, NamespaceDir(dir, ns)) && m[q] == Directory
    ensures NamespaceDone(fs, dir, ns, folders, 0, m)
  {
    GrownBelow(fs, dir + ["data"], NamespaceDir(dir, ns), m);
    forall q | q in m && q !in fs
      ensures q == NamespaceDir(dir, ns)
    {
      assert q == NamespaceDir(dir, ns)[..|q|];
    }
  }

  /** In a roomy file system no file stands on the way to the namespace
      directory. */
  lemma NamespaceDirFree(fs: Fs, dir: Path, ns: string)
    requires Valid(fs) && IsDir(fs, dir + ["data"]) && Roomy(fs, dir)
    ensures !FileOnWay(fs, NamespaceDir(dir, ns))
  {
    var nsDir := NamespaceDir(dir, ns);
    assert nsDir[..|dir| + 2] == nsDir;
    NoFileOnWayBelow(fs, dir + ["data"], nsDir);
  }

  /** Starting from a roomy file system, no file stands on the way to the
      directory of folder i. */
  lemma FolderDirFree(fs: Fs, dir: Path, ns: string, folders: seq<string>, i: nat, m: Fs)
    requires i < |folders| && Roomy(fs, dir) && NamespaceDone(fs, dir, ns, folders, i, m)
    ensures !FileOnWay(m, FolderDir(dir, ns, folders[i]))
  {
    var folderDir := FolderDir(dir, ns, folders[i]);
    assert !IsFile(m, folderDir) by {
      if folderDir in fs {
        assert IsPrefix(dir + ["data"], folderDir);
        assert fs[folderDir] == Directory;
        assert m[folderDir] == fs[folderDir];
      }
    }
    forall k | |dir| + 2 < k <= |dir| + 3
      ensures !IsFile(m, folderDir[..k])
    {
      assert folderDir[..k] == folderDir;
    }
    NoFileOnWayBelow(m, NamespaceDir(dir, ns), folderDir);
  }

  /** Starting from a roomy file system, no starter file is a directory. */
  lemma StarterFree(fs: Fs, dir: Path, ns: string, folders: seq<string>, i: nat, m: Fs)
    requires i < |folders| && StarterFile(folders[i]).Some?
    requires Roomy(fs, dir) && NamespaceFrame(fs, dir, ns, folders, m)
    ensures !IsDir(m, StarterPath(dir, ns, folders[i]))
  {
    var file := StarterPath(dir, ns, folders[i]);
    assert file !in fs by {
      assert IsPrefix(dir + ["data"], file);
    }
  }

  /** Creating the directory of folder i keeps the step going. */
  lemma FolderStep(fs: Fs, dir: Path, ns: string, folders: seq<string>, i: nat, m: Fs, grown: Fs)
    requires i < |folders| && NamespaceDone(fs, dir, ns, folders, i, m)
    requires forall q :: q in m ==> q in grown && grown[q] == m[q]
    requires forall q :: q in grown && q !in m ==> IsPrefix(q, FolderDir(dir, ns, folders[i])) && grown[q] == Directory
    requires Valid(grown) && IsDir(grown, FolderDir(dir, ns, folders[i]))
    ensures NamespaceDone(fs, dir, ns, folders, i, grown)
  {
    FolderStepFrame(fs, dir, ns, folders, i, m, grown);
    FolderStepWritten(dir, ns, folders, i, m, grown);
  }

  /** The directories made for folder i are namespace paths above the
      starter files. */
  lemma FolderStepFrame(fs: Fs, dir: Path, ns: string, folders: seq<string>, i: nat, m: Fs, grown: Fs)
    requires i < |folders| && Valid(m) && IsDir(m, NamespaceDir(dir, ns))
    requires NamespaceFrame(fs, dir, ns, folders, m)
    requires forall q :: q in m ==> q in grown && grown[q] == m[q]
    requires forall q :: q in grown && q !in m ==> IsPrefix(q, FolderDir(dir, ns, folders[i])) && grown[q] == Directory
    ensures NamespaceFrame(fs, dir, ns, folders, grown)
  {
    var folderDir := FolderDir(dir, ns, folders[i]);
    GrownBelow(m, NamespaceDir(dir, ns), folderDir, grown);
    forall q | q in grown && q !in m
      ensures q == folderDir
    {
      assert q == folderDir[..|q|];
    }
    assert NamespacePath(dir, ns, folders, folderDir);
  }

  /** Creating directories keeps the folders already written. */
  lemma FolderStepWritten(dir: Path, ns: string, folders: seq<string>, i: nat, m: Fs, grown: Fs)
    requires i < |folders| && FoldersWritten(dir, ns, folders, i, m)
    requires forall q :: q in m ==> q in grown && grown[q] == m[q]
    ensures FoldersWritten(dir, ns, folders, i, grown)
  {
    forall j | 0 <= j < i
      ensures FolderWritten(dir, ns, folders[j], grown)
    {
      assert FolderWritten(dir, ns, folders[j], m);
    }
  }

  /** A folder without a starter file is complete once it exists. */
  lemma NoStarterStep(fs: Fs, dir: Path, ns: string, folders: seq<string>, i: nat, m: Fs)
    requires i < |folders| && StarterFile(folders[i]).None?
    requires NamespaceDone(fs, dir, ns, folders, i, m)
    requires IsDir(m, FolderDir(dir, ns, folders[i]))
    ensures NamespaceDone(fs, dir, ns, folders, i + 1, m)
  {
    assert FolderWritten(dir, ns, folders[i], m);
  }

  /** Writing the starter file of folder i keeps the frame. */
  lemma StarterFrame(fs: Fs, dir: Path, ns: string, folders: seq<string>, i: nat, m: Fs)
    requires i < |folders| && StarterFile(folders[i]).Some?
    requires NamespaceFrame(fs, dir, ns, folders, m) && !IsDir(m, StarterPath(dir, ns, folders[i]))
    ensures NamespaceFrame(fs, dir, ns, folders,
      m[StarterPath(dir, ns, folders[i]) := RegularFile(GetSampleContent(folders[i]))])
  {
    StarterKept(fs, dir, ns, folders, i, m);
    StarterAdded(fs, dir, ns, folders, i, m);
  }

  lemma StarterKept(fs: Fs, dir: Path, ns: string, folders: seq<string>, i: nat, m: Fs)
    requires i < |folders| && StarterFile(folders[i]).Some?
    requires NamespaceKept(fs, dir, ns, folders, m)
    ensures NamespaceKept(fs, dir, ns, folders,
      m[StarterPath(dir, ns, folders[i]) := RegularFile(GetSampleContent(folders[i]))])
  {
    var f := folders[i];
    var file := StarterPath(dir, ns, f);
    var next := m[file := RegularFile(GetSampleContent(f))];
    forall q | q in fs && next[q] != fs[q]
      ensures next[q].RegularFile?
      ensures exists g :: g in folders && StarterFile(g).Some? && q == StarterPath(dir, ns, g)
    {
      if q == file {
        assert f in folders;
      }
    }
  }

  lemma StarterAdded(fs: Fs, dir: Path, ns: string, folders: seq<string>, i: nat, m: Fs)
    requires i < |folders| && StarterFile(folders[i]).Some?
    requires NamespaceAdded(fs, dir, ns, folders, m) && !IsDir(m, StarterPath(dir, ns, folders[i]))
    ensures NamespaceAdded(fs, dir, ns, folders,
      m[StarterPath(dir, ns, folders[i]) := RegularFile(GetSampleContent(folders[i]))])
  {
    var f := folders[i];
    var file := StarterPath(dir, ns, f);
    var next := m[file := RegularFile(GetSampleContent(f))];
    assert AddedPaths(fs, dir, ns, folders, next) by {
      assert NamespacePath(dir, ns, folders, file) by {
        assert f in folders;
      }
    }
    assert AddedDirs(fs, dir, next) by {
      assert AddedDirs(fs, dir, m);
    }
  }

  /** Writing the starter file of folder i completes it, and the folders
      before it stay complete. */
  lemma StarterWritten(dir: Path, ns: string, folders: seq<string>, i: nat, m: Fs)
    requires i < |folders| && StarterFile(folders[i]).Some?
    requires FoldersWritten(dir, ns, folders, i, m)
    requires IsDir(m, FolderDir(dir, ns, folders[i]))
    ensures FoldersWritten(dir, ns, folders, i + 1,
      m[StarterPath(dir, ns, folders[i]) := RegularFile(GetSampleContent(folders[i]))])
  {
    var f := folders[i];
    var file := StarterPath(dir, ns, f);
    var next := m[file := RegularFile(GetSampleContent(f))];
    forall j | 0 <= j <= i
      ensures FolderWritten(dir, ns, folders[j], next)
    {
      var g := folders[j];
      assert FolderDir(dir, ns, g) != file;
      if StarterFile(g).Some? && StarterPath(dir, ns, g) != file {
        assert j < i;
        assert FolderWritten(dir, ns, g, m);
      }
    }
  }

  /** The namespace step: data/<namespace>, then each folder with its
      starter file, in order. On failure what was made so far stays;
      starting from a roomy file system it does not fail. */
  method WriteNamespace(fs: Fs, dir: Path, ns: string, folders: seq<string>) returns (after: Fs, err: Option<FsError>)
    requires Valid(fs) && IsDir(fs, dir + ["data"])
    ensures Valid(after)
    ensures after == fs || NamespaceFrame(fs, dir, ns, folders, after)
    ensures err.None? ==> NamespaceDone(fs, dir, ns, folders, |folders|, after)
    ensures Roomy(fs, dir) ==> err.None?
  {
    var nsDir := NamespaceDir(dir, ns);
    if Roomy(fs, dir) {
      NamespaceDirFree(fs, dir, ns);
    }
    var made := CreateDirAll(fs, nsDir);
    if made.Err? {
      return fs, Some(made.error);
    }
    after := made.value;
    NamespaceStart(fs, dir, ns, folders, after);
    for i := 0 to |folders|
      invariant NamespaceDone(fs, dir, ns, folders, i, after)
    {
      var failed;
      after, failed := WriteFolder(fs, dir, ns, folders, i, after);
      if failed.Some? {
        return after, failed;
      }
    }
    return after, None;
  }

  /** One turn of the folder loop of create_pack: the folder's directory,
      then its starter file if it has one. */
  method WriteFolder(fs: Fs, dir: Path, ns: string, folders: seq<string>, i: nat, m: Fs)
    returns (after: Fs, err: Option<FsError>)
    requires i < |folders| && NamespaceDone(fs, dir, ns, folders, i, m)
    ensures Valid(after) && NamespaceFrame(fs, dir, ns, folders, after)
    ensures err.None? ==> NamespaceDone(fs, dir, ns, folders, i + 1, after)
    ensures Roomy(fs, dir) ==> err.None?
  {
    var folder := folders[i];
    var folderDir := FolderDir(dir, ns, folder);
    if Roomy(fs, dir) {
      FolderDirFree(fs, dir, ns, folders, i, m);
    }
    var madeFolder := CreateDirAll(m, folderDir);
    if madeFolder.Err? {
      return m, Some(madeFolder.error);
    }
    FolderStep(fs, dir, ns, folders, i, m, madeFolder.value);
    after := madeFolder.value;
    if StarterFile(folder).None? {
      NoStarterStep(fs, dir, ns, folders, i, after);
    } else {
      var file := StarterPath(dir, ns, folder);
      if Roomy(fs, dir) {
        StarterFree(fs, dir, ns, folders, i, after);
      }
      var written := Write(after, file, GetSampleContent(folder));
      if written.Err? {
        return after, Some(written.error);
      }
      StarterFrame(fs, dir, ns, folders, i, after);
      StarterWritten(dir, ns, folders, i, after);
      after := written.value;
    }
    return after, None;
  }

  /** Why the icon stops the command, if it does: it does not exist, its
      extension is not png, or it is a directory and cannot be copied. */
  function IconError(icon: Option<Path>, start: Fs): (r: Option<CreateError>)
    ensures r.None? <==> icon.None? || (IsFile(start, icon.value) && IsPng(icon.value))
    ensures icon.Some? && icon.value !in start ==> r == Some(IconMissing(icon.value))
    ensures icon.Some? && icon.value in start && !IsPng(icon.value) ==> r == Some(IconNotPng)
    ensures r.Some? ==> r.value.IconMissing? || r.value.IconNotPng? || r.value.Io?
  {
    match icon
    case None => None
    case Some(p) =>
      if p !in start then Some(IconMissing(p))
      else if !IsPng(p) then Some(IconNotPng)
      else if start[p] == Directory then Some(Io(IsADirectory(p)))
      else None
  }

  /** The paths a created pack consists of. */
  predicate InPack(s: PackSettings, q: Path) {
    var dir := s.directory;
    || q == dir || q == dir + ["pack.mcmeta"] || q == dir + ["data"]
    || (s.icon.Some? && q == dir + ["pack.png"])
    || (s.includeMinecraft && TagPath(dir, s.minecraftTags, q))
    || (s.namespace.Some? && NamespacePath(dir, s.namespace.value, s.folders, q))
  }

  /** b agrees with a outside `dir`. */
  predicate SameOutside(a: Fs, b: Fs, dir: Path) {
    && (forall q :: q in a && !IsPrefix(dir, q) ==> q in b && b[q] == a[q])
    && (forall q :: q in b && !IsPrefix(dir, q) ==> q in a)
  }

  /** Everything below the pack directory belongs to the pack. */
  predicate OnlyPack(s: PackSettings, m: Fs) {
    forall q :: q in m && IsPrefix(s.directory, q) ==> InPack(s, q)
  }

  /** pack.mcmeta holds the manifest of the selected formats, and
      pack.png is a copy of the icon when there is one. */
  predicate PackFiles(s: PackSettings, start: Fs, m: Fs)
    requires |s.formats| > 0
  {
    var dir := s.directory;
    && dir + ["pack.mcmeta"] in m
    && m[dir + ["pack.mcmeta"]] == RegularFile(Pretty(ManifestJson(s.description, s.formats)))
    && (s.icon.None? ==> dir + ["pack.png"] !in m)
    && (s.icon.Some? ==> s.icon.value in start && dir + ["pack.png"] in m && m[dir + ["pack.png"]] == start[s.icon.value])
  }

  /** The data directory, the tag files when the minecraft namespace is
      included, and the namespace folders with their starter files. */
  predicate PackTree(s: PackSettings, m: Fs) {
    var dir := s.directory;
    && IsDir(m, dir) && IsDir(m, dir + ["data"])
    && (s.includeMinecraft ==>
          IsDir(m, TagsDir(dir)) && TagsWritten(dir, s.minecraftTags, |s.minecraftTags|, m))
    && (s.namespace.Some? ==>
          && IsDir(m, NamespaceDir(dir, s.namespace.value))
          && FoldersWritten(dir, s.namespace.value, s.folders, |s.folders|, m))
  }

  /** The pack a successful create leaves, next to the file system `start`
      it started from once the directory was reset. */
  predicate Layout(s: PackSettings, start: Fs, after: Fs)
    requires |s.formats| > 0
  {
    && Valid(after)
    && SameOutside(start, after, s.directory)
    && OnlyPack(s, after)
    && PackFiles(s, start, after)
    && PackTree(s, after)
  }

  /** The pack once pack.mcmeta and the data directory are written: only
      those, the directory itself and the icon copy are in it. */
  predicate Prepared(s: PackSettings, start: Fs, m: Fs)
    requires |s.formats| > 0
  {
    var dir := s.directory;
    && Valid(m) && IsDir(m, dir) && IsDir(m, dir + ["data"]) && NothingBelow(m, dir + ["data"])
    && SameOutside(start, m, dir)
    && (forall q :: q in m && IsPrefix(dir, q) ==>
          q == dir || q == dir + ["pack.mcmeta"] || q == dir + ["data"] || (s.icon.Some? && q == dir + ["pack.png"]))
    && PackFiles(s, start, m)
  }

  /** b keeps the entries of a, and changes or adds entries only strictly
      below `base`. */
  predicate ChangedBelow(a: Fs, b: Fs, base: Path) {
    && (forall q :: q in a ==> q in b)
    && (forall q :: q in a && b[q] != a[q] ==> IsPrefix(base, q) && |q| > |base|)
    && (forall q :: q in b && q !in a ==> IsPrefix(base, q) && |q| > |base|)
  }

  /** The tags step changes nothing outside data. */
  lemma TagsChangedBelow(fs: Fs, dir: Path, tags: seq<string>, m: Fs)
    requires TagsFrame(fs, dir, tags, m)
    ensures ChangedBelow(fs, m, dir + ["data"])
  {
    forall q | TagPath(dir, tags, q)
      ensures IsPrefix(dir + ["data"], q) && |q| > |dir| + 1
    {
      if IsPrefix(q, TagsDir(dir)) && |q| > |dir| + 1 {
        assert q[..|dir| + 1] == TagsDir(dir)[..|dir| + 1];
      } else {
        var t :| t in tags && q == TagFile(dir, t);
        assert q[..|dir| + 1] == TagsDir(dir)[..|dir| + 1];
      }
    }
  }

  /** The namespace step changes nothing outside data. */
  lemma NamespaceChangedBelow(fs: Fs, dir: Path, ns: string, folders: seq<string>, m: Fs)
    requires NamespaceFrame(fs, dir, ns, folders, m)
    ensures ChangedBelow(fs, m, dir + ["data"])
  {
    forall q | NamespacePath(dir, ns, folders, q)
      ensures IsPrefix(dir + ["data"], q) && |q| > |dir| + 1
    {
      if q != NamespaceDir(dir, ns) {
        var f :| f in folders && (q == FolderDir(dir, ns, f) || (StarterFile(f).Some? && q == StarterPath(dir, ns, f)));
        assert q[..|dir| + 2] == NamespaceDir(dir, ns);
      }
    }
  }

  /** What the tags step leaves in a start pack is roomy. */
  lemma TagsLeaveRoom(fs: Fs, dir: Path, tags: seq<string>, m: Fs)
    requires NothingBelow(fs, dir + ["data"]) && TagsFrame(fs, dir, tags, m)
    ensures Roomy(m, dir)
  {
    forall q | q in m && IsPrefix(dir + ["data"], q) && |q| > |dir| + 1 && m[q] != Directory
      ensures |q| > |dir| + 4
    {
      assert q !in fs;
      if !IsPrefix(q, TagsDir(dir)) {
        var t :| t in tags && q == TagFile(dir, t);
      }
    }
  }

  /** The steps after the reset leave the pack's layout. */
  lemma PackLayout(s: PackSettings, start: Fs, prepared: Fs, tagged: Fs, after: Fs)
    requires |s.formats| > 0 && Prepared(s, start, prepared)
    requires s.includeMinecraft ==> TagsDone(prepared, s.directory, s.minecraftTags, |s.minecraftTags|, tagged)
    requires !s.includeMinecraft ==> tagged == prepared
    requires s.namespace.Some? ==> NamespaceDone(tagged, s.directory, s.namespace.value, s.folders, |s.folders|, after)
    requires s.namespace.None? ==> after == tagged
    ensures Layout(s, start, after)
  {
    ChangedBelowData(s, prepared, tagged, after);
    BelowDataInside(s.directory);
    KeptOutsideData(s, start, prepared, after);
    OnlyPackAfter(s, start, prepared, tagged, after);
    TreeAfter(s, prepared, tagged, after);
  }

  /** The tags and namespace steps together change only what lies strictly
      below data. */
  lemma ChangedBelowData(s: PackSettings, prepared: Fs, tagged: Fs, after: Fs)
    requires s.includeMinecraft ==> TagsDone(prepared, s.directory, s.minecraftTags, |s.minecraftTags|, tagged)
    requires !s.includeMinecraft ==> tagged == prepared
    requires s.namespace.Some? ==> NamespaceDone(tagged, s.directory, s.namespace.value, s.folders, |s.folders|, after)
    requires s.namespace.None? ==> after == tagged
    ensures ChangedBelow(prepared, after, s.directory + ["data"])
  {
    var dir := s.directory;
    if s.includeMinecraft {
      TagsChangedBelow(prepared, dir, s.minecraftTags, tagged);
    }
    if s.namespace.Some? {
      NamespaceChangedBelow(tagged, dir, s.namespace.value, s.folders, after);
    }
    ChangedBelowTwice(prepared, tagged, after, dir + ["data"]);
  }

  lemma ChangedBelowTwice(a: Fs, b: Fs, c: Fs, base: Path)
    requires ChangedBelow(a, b, base) && ChangedBelow(b, c, base)
    ensures ChangedBelow(a, c, base)
  {
  }

  /** The tags and the namespace folders are in place at the end. */
  lemma TreeAfter(s: PackSettings, prepared: Fs, tagged: Fs, after: Fs)
    requires s.includeMinecraft ==> TagsDone(prepared, s.directory, s.minecraftTags, |s.minecraftTags|, tagged)
    requires !s.includeMinecraft ==> tagged == prepared
    requires s.namespace.Some? ==> NamespaceDone(tagged, s.directory, s.namespace.value, s.folders, |s.folders|, after)
    requires s.namespace.None? ==> after == tagged
    ensures s.includeMinecraft ==>
      IsDir(after, TagsDir(s.directory)) && TagsWritten(s.directory, s.minecraftTags, |s.minecraftTags|, after)
    ensures s.namespace.Some? ==>
      && IsDir(after, NamespaceDir(s.directory, s.namespace.value))
      && FoldersWritten(s.directory, s.namespace.value, s.folders, |s.folders|, after)
  {
    if s.includeMinecraft && s.namespace.Some? {
      TagsSurviveNamespace(tagged, s.directory, s.namespace.value, s.folders, s.minecraftTags, after);
    }
  }

  /** A path strictly below data is below the pack directory and is none
      of its top-level entries. */
  lemma BelowDataInside(dir: Path)
    ensures forall q :: IsPrefix(dir + ["data"], q) ==> IsPrefix(dir, q) && |q| > |dir|
  {
    forall q | IsPrefix(dir + ["data"], q)
      ensures IsPrefix(dir, q) && |q| > |dir|
    {
      assert q[..|dir|] == (dir + ["data"])[..|dir|];
    }
  }

  /** What lies outside data survives the tags and namespace steps. */
  lemma KeptOutsideData(s: PackSettings, start: Fs, prepared: Fs, after: Fs)
    requires |s.formats| > 0 && Prepared(s, start, prepared)
    requires ChangedBelow(prepared, after, s.directory + ["data"])
    requires forall q :: IsPrefix(s.directory + ["data"], q) ==> IsPrefix(s.directory, q) && |q| > |s.directory|
    ensures SameOutside(start, after, s.directory)
    ensures PackFiles(s, start, after)
    ensures IsDir(after, s.directory) && IsDir(after, s.directory + ["data"])
  {
    var dir := s.directory;
    OutsideKept(start, prepared, after, dir);
    TopKept(s, start, prepared, after);
  }

  /** Changes strictly below data leave what lies outside the directory. */
  lemma OutsideKept(start: Fs, prepared: Fs, after: Fs, dir: Path)
    requires SameOutside(start, prepared, dir)
    requires ChangedBelow(prepared, after, dir + ["data"])
    requires forall q :: IsPrefix(dir + ["data"], q) ==> IsPrefix(dir, q) && |q| > |dir|
    ensures SameOutside(start, after, dir)
  {
  }

  /** Changes strictly below data leave pack.mcmeta, pack.png and the two
      top directories. */
  lemma TopKept(s: PackSettings, start: Fs, prepared: Fs, after: Fs)
    requires |s.formats| > 0 && PackFiles(s, start, prepared)
    requires IsDir(prepared, s.directory) && IsDir(prepared, s.directory + ["data"])
    requires ChangedBelow(prepared, after, s.directory + ["data"])
    ensures PackFiles(s, start, after)
    ensures IsDir(after, s.directory) && IsDir(after, s.directory + ["data"])
  {
    var dir := s.directory;
    var data := dir + ["data"];
    assert data[|dir|] == "data";
    assert (dir + ["pack.mcmeta"])[|dir|] == "pack.mcmeta";
    assert (dir + ["pack.png"])[|dir|] == "pack.png";
    assert !IsPrefix(data, dir + ["pack.mcmeta"]);
    assert !IsPrefix(data, dir + ["pack.png"]);
  }

  /** Nothing but the pack lies below the pack directory at the end. */
  lemma OnlyPackAfter(s: PackSettings, start: Fs, prepared: Fs, tagged: Fs, after: Fs)
    requires |s.formats| > 0 && Prepared(s, start, prepared)
    requires s.includeMinecraft ==> TagsFrame(prepared, s.directory, s.minecraftTags, tagged)
    requires !s.includeMinecraft ==> tagged == prepared
    requires s.namespace.Some? ==> NamespaceFrame(tagged, s.directory, s.namespace.value, s.folders, after)
    requires s.namespace.None? ==> after == tagged
    ensures OnlyPack(s, after)
  {
  }

  /** The tag files and the tags directory survive the namespace step. */
  lemma TagsSurviveNamespace(fs: Fs, dir: Path, ns: string, folders: seq<string>, tags: seq<string>, m: Fs)
    requires IsDir(fs, TagsDir(dir)) && TagsWritten(dir, tags, |tags|, fs)
    requires NamespaceKept(fs, dir, ns, folders, m)
    ensures IsDir(m, TagsDir(dir)) && TagsWritten(dir, tags, |tags|, m)
  {
  }

  /** An icon inside the pack directory is removed with it before it is
      looked for, so it is always missing. */
  lemma IconInsidePackIsLost(fs: Fs, dir: Path, icon: Path)
    requires Valid(fs) && |dir| > 0 && !FileOnWay(fs, dir)
    requires IsPrefix(dir, icon) && icon != dir
    ensures icon !in Reset(fs, dir).value
    ensures IconError(Some(icon), Reset(fs, dir).value) == Some(IconMissing(icon))
  {
  }

  /** The icon step: the copy of the icon is pack.png. */
  predicate IconCopied(s: PackSettings, start: Fs, m: Fs) {
    && (s.icon.None? ==> m == start)
    && (s.icon.Some? ==>
          s.icon.value in start && m == start[s.directory + ["pack.png"] := start[s.icon.value]])
  }

  /** The icon step of create_pack: the icon must exist and have the png
      extension, and is copied to pack.png. */
  method CopyIcon(s: PackSettings, start: Fs) returns (m: Fs, err: Option<CreateError>)
    requires Valid(start) && IsDir(start, s.directory) && NothingBelow(start, s.directory)
    ensures err == IconError(s.icon, start)
    ensures err.Some? ==> m == start
    ensures err.None? ==> Valid(m) && IconCopied(s, start, m)
  {
    if s.icon.None? {
      return start, None;
    }
    var icon := s.icon.value;
    if icon !in start {
      return start, Some(IconMissing(icon));
    }
    if !IsPng(icon) {
      return start, Some(IconNotPng);
    }
    var png := s.directory + ["pack.png"];
    assert png[..|png| - 1] == s.directory;
    var copied := Copy(start, icon, png);
    if copied.Err? {
      return start, Some(Io(copied.error));
    }
    return copied.value, None;
  }

  /** pack.mcmeta and the data directory, which cannot fail once the
      directory is reset. */
  method WriteTop(s: PackSettings, start: Fs, m: Fs) returns (made: Fs)
    requires |s.formats| > 0
    requires Valid(start) && IsDir(start, s.directory) && NothingBelow(start, s.directory)
    requires Valid(m) && IconCopied(s, start, m)
    ensures Prepared(s, start, made)
  {
    var dir := s.directory;
    var mcmeta := dir + ["pack.mcmeta"];
    assert mcmeta[..|mcmeta| - 1] == dir;
    var written := Write(m, mcmeta, Pretty(ManifestJson(s.description, s.formats))).value;
    var data := dir + ["data"];
    DataDirFree(s, start, m, written);
    made := CreateDirAll(written, data).value;
    GrownBelow(written, dir, data, made);
    PreparedAfterData(s, start, m, written, made);
  }

  /** Once pack.mcmeta is written, no file stands in the way of the data
      directory. */
  lemma DataDirFree(s: PackSettings, start: Fs, m: Fs, written: Fs)
    requires Valid(start) && IsDir(start, s.directory) && NothingBelow(start, s.directory)
    requires IconCopied(s, start, m) && Valid(written)
    requires s.directory + ["pack.mcmeta"] in written
    requires written == m[s.directory + ["pack.mcmeta"] := written[s.directory + ["pack.mcmeta"]]]
    ensures !FileOnWay(written, s.directory + ["data"])
  {
    var dir := s.directory;
    var data := dir + ["data"];
    assert data[..|data| - 1] == dir;
    assert data[|dir|] == "data" && (dir + ["pack.mcmeta"])[|dir|] == "pack.mcmeta";
    assert (dir + ["pack.png"])[|dir|] == "pack.png";
    assert data !in start;
    assert IsDir(written, dir);
    FileOnWayStep(written, data);
    NoFileOnWayToDir(written, dir);
  }

  /** create_pack with the answer to the overwrite prompt as a parameter:
      cancelled when the directory exists and neither --force nor the
      answer allows overwriting it; otherwise the directory is reset, the
      icon checked and copied, and the pack written. Only a file in the
      way of the directory or an unusable icon stops it. */
  method CreatePack(s: PackSettings, force: bool, confirm: bool, fs: Fs) returns (after: Fs, r: Result<Outcome, CreateError>)
    requires Valid(fs) && |s.directory| > 0 && |s.formats| > 0
    ensures Valid(after)
    ensures r == Ok(Cancelled) <==> s.directory in fs && !force && !confirm
    ensures r == Ok(Cancelled) ==> after == fs
    ensures r != Ok(Cancelled) && FileOnWay(fs, s.directory) ==> r.Err? && r.error.Io? && after == fs
    ensures r != Ok(Cancelled) && !FileOnWay(fs, s.directory) ==>
      var start := Reset(fs, s.directory).value;
      && (IconError(s.icon, start).Some? ==> r == Err(IconError(s.icon, start).value) && after == start)
      && (IconError(s.icon, start).None? ==> r == Ok(Created) && Layout(s, start, after))
  {
    var dir := s.directory;
    if dir in fs && !force && !confirm {
      return fs, Ok(Cancelled);
    }
    var reset := Reset(fs, dir);
    if reset.Err? {
      return fs, Err(Io(reset.error));
    }
    var start := reset.value;
    var m, iconErr := CopyIcon(s, start);
    if iconErr.Some? {
      return m, Err(iconErr.value);
    }
    after := WritePack(s, start, m);
    r := Ok(Created);
  }

  /** The writing half of create_pack, after the icon step: pack.mcmeta
      and data, the minecraft tags when asked for, then the namespace.
      The tags and namespace steps cannot fail in the freshly reset
      directory, so the errors `?` would propagate never arise. */
  method WritePack(s: PackSettings, start: Fs, m: Fs) returns (after: Fs)
    requires |s.formats| > 0
    requires Valid(start) && IsDir(start, s.directory) && NothingBelow(start, s.directory)
    requires Valid(m) && IconCopied(s, start, m)
    ensures Valid(after) && Layout(s, start, after)
  {
    var dir := s.directory;
    after := WriteTop(s, start, m);
    ghost var prepared := after;
    if s.includeMinecraft {
      var tagged, err := WriteTags(after, dir, s.minecraftTags);
      assert err.None?;
      TagsLeaveRoom(after, dir, s.minecraftTags, tagged);
      TagsChangedBelow(after, dir, s.minecraftTags, tagged);
      after := tagged;
    }
    ghost var tagged := after;
    if s.namespace.Some? {
      var spaced, err := WriteNamespace(after, dir, s.namespace.value, s.folders);
      assert err.None?;
      after := spaced;
    }
    PackLayout(s, start, prepared, tagged, after);
  }

  /** The top of the pack once pack.mcmeta is written over the icon step
      and the data directory created. */
  predicate TopWritten(s: PackSettings, start: Fs, m: Fs, written: Fs, made: Fs) {
    && |s.formats| > 0
    && Valid(start) && IsDir(start, s.directory) && NothingBelow(start, s.directory)
    && IconCopied(s, start, m)
    && written == m[s.directory + ["pack.mcmeta"] := RegularFile(Pretty(ManifestJson(s.description, s.formats)))]
    && Valid(made) && IsDir(made, s.directory + ["data"])
    && (forall q :: q in written ==> q in made && made[q] == written[q])
    && (forall q :: q in made && q !in written ==> q == s.directory + ["data"])
  }

  /** Writing pack.mcmeta and creating the data directory complete the
      top of the pack. */
  lemma PreparedAfterData(s: PackSettings, start: Fs, m: Fs, written: Fs, made: Fs)
    requires |s.formats| > 0
    requires Valid(start) && IsDir(start, s.directory) && NothingBelow(start, s.directory)
    requires IconCopied(s, start, m)
    requires written == m[s.directory + ["pack.mcmeta"] := RegularFile(Pretty(ManifestJson(s.description, s.formats)))]
    requires Valid(made) && IsDir(made, s.directory + ["data"])
    requires forall q :: q in written ==> q in made && made[q] == written[q]
    requires forall q :: q in made && q !in written ==>
      |q| > |s.directory| && IsPrefix(s.directory, q) && IsPrefix(q, s.directory + ["data"])
    ensures Prepared(s, start, made)
  {
    var data := s.directory + ["data"];
    forall q | q in made && q !in written
      ensures q == data
    {
      assert q == data[..|q|];
    }
    assert TopWritten(s, start, m, written, made);
    TopOutside(s, start, m, written, made);
    TopListing(s, start, m, written, made);
    TopFiles(s, start, m, written, made);
  }

  lemma TopOutside(s: PackSettings, start: Fs, m: Fs, written: Fs, made: Fs)
    requires TopWritten(s, start, m, written, made)
    ensures SameOutside(start, made, s.directory)
  {
    var dir := s.directory;
    assert IsPrefix(dir, dir + ["pack.png"]) && IsPrefix(dir, dir + ["pack.mcmeta"]) && IsPrefix(dir, dir + ["data"]);
    forall q | q in start && !IsPrefix(dir, q)
      ensures q in made && made[q] == start[q]
    {
      assert m[q] == start[q];
    }
    forall q | q in made && !IsPrefix(dir, q)
      ensures q in start
    {
      assert q in written;
    }
  }

  lemma TopListing(s: PackSettings, start: Fs, m: Fs, written: Fs, made: Fs)
    requires TopWritten(s, start, m, written, made)
    ensures NothingBelow(made, s.directory + ["data"])
    ensures forall q :: q in made && IsPrefix(s.directory, q) ==>
      q == s.directory || q == s.directory + ["pack.mcmeta"] || q == s.directory + ["data"]
      || (s.icon.Some? && q == s.directory + ["pack.png"])
  {
    TopDataEmpty(s, start, m, written, made);
    var dir := s.directory;
    forall q | q in made && IsPrefix(dir, q)
      ensures q == dir || q == dir + ["pack.mcmeta"] || q == dir + ["data"] || (s.icon.Some? && q == dir + ["pack.png"])
    {
      if q in start {
        assert q == dir;
      }
    }
  }

  lemma TopDataEmpty(s: PackSettings, start: Fs, m: Fs, written: Fs, made: Fs)
    requires TopWritten(s, start, m, written, made)
    ensures NothingBelow(made, s.directory + ["data"])
  {
    var dir := s.directory;
    var data := dir + ["data"];
    forall q | q in made && IsPrefix(data, q)
      ensures q == data
    {
      assert IsPrefix(dir, q) by {
        assert q[..|dir|] == dir;
      }
      assert q !in start;
      assert q[|dir|] == data[|dir|] == "data";
      assert q !in written;
    }
  }

  lemma TopFiles(s: PackSettings, start: Fs, m: Fs, written: Fs, made: Fs)
    requires TopWritten(s, start, m, written, made)
    ensures PackFiles(s, start, made)
    ensures IsDir(made, s.directory)
  {
    TopFilesBy(s.directory, s.icon, start, m, written, made, Pretty(ManifestJson(s.description, s.formats)));
  }

  /** TopFiles with the manifest's content left abstract. */
  lemma TopFilesBy(dir: Path, icon: Option<Path>, start: Fs, m: Fs, written: Fs, made: Fs, content: Content)
    requires IsDir(start, dir) && NothingBelow(start, dir)
    requires icon.None? ==> m == start
    requires icon.Some? ==> icon.value in start && m == start[dir + ["pack.png"] := start[icon.value]]
    requires written == m[dir + ["pack.mcmeta"] := RegularFile(content)]
    requires forall q :: q in written ==> q in made && made[q] == written[q]
    requires forall q :: q in made && q !in written ==> q == dir + ["data"]
    ensures dir + ["pack.mcmeta"] in made && made[dir + ["pack.mcmeta"]] == RegularFile(content)
    ensures icon.None? ==> dir + ["pack.png"] !in made
    ensures icon.Some? ==> dir + ["pack.png"] in made && made[dir + ["pack.png"]] == start[icon.value]
    ensures IsDir(made, dir)
  {
    var png := dir + ["pack.png"];
    var mcmeta := dir + ["pack.mcmeta"];
    TopPathsDistinct(dir);
    assert made[mcmeta] == written[mcmeta];
    assert made[dir] == written[dir] == m[dir];
    if icon.Some? {
      assert made[png] == written[png] == m[png];
    } else {
      assert IsPrefix(dir, png);
    }
  }

  /** The pack directory, its manifest, its icon and its data directory are
      four different paths. */
  lemma TopPathsDistinct(dir: Path)
    ensures dir + ["pack.png"] != dir + ["pack.mcmeta"]
    ensures dir + ["pack.png"] != dir + ["data"] && dir + ["pack.mcmeta"] != dir + ["data"]
    ensures dir != dir + ["pack.png"] && dir != dir + ["pack.mcmeta"]
  {
    assert (dir + ["pack.png"])[|dir|] == "pack.png";
    assert (dir + ["pack.mcmeta"])[|dir|] == "pack.mcmeta";
    assert (dir + ["data"])[|dir|] == "data";
  }
}
