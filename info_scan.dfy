/** The content side of the `info` command (src/commands/info.rs): the
    per-namespace tallies, the walk over a namespace directory, the scan of
    an archive's entry names grouped by contiguous namespace runs, and the
    two drivers that put a manifest and a namespace table together. A
    namespace directory is the sequence of the relative paths of its files
    in walk order; an archive is its sequence of entries in index order. */
module InfoScan {
  import opened Wrappers
  import opened Text
  import opened Json
  import opened Info

  /** NamespaceInfo: the counters and the worldgen flag of one namespace. */
  datatype NamespaceInfo = NamespaceInfo(
    functions: nat,
    advancements: nat,
    recipes: nat,
    lootTables: nat,
    predicates: nat,
    tags: nat,
    worldGen: bool)

  /** `NamespaceInfo::default()`. */
  const EmptyInfo := NamespaceInfo(0, 0, 0, 0, 0, 0, false)

  /** has_content: some counter is positive or the worldgen flag is set. */
  predicate HasContent(info: NamespaceInfo) {
    info.functions > 0 || info.advancements > 0 || info.recipes > 0
    || info.lootTables > 0 || info.predicates > 0 || info.tags > 0 || info.worldGen
  }

  /** Which counter a file increments, if any. */
  datatype Kind = Function | Advancement | Recipe | LootTable | Predicate | Tag | Other

  /** The value of the counter of a kind; Other has none. */
  function Counter(info: NamespaceInfo, k: Kind): nat {
    match k
    case Function => info.functions
    case Advancement => info.advancements
    case Recipe => info.recipes
    case LootTable => info.lootTables
    case Predicate => info.predicates
    case Tag => info.tags
    case Other => 0
  }

  /** The sum of all counters. */
  function Total(info: NamespaceInfo): nat {
    info.functions + info.advancements + info.recipes + info.lootTables + info.predicates + info.tags
  }

  lemma HasContentMeaning(info: NamespaceInfo)
    ensures HasContent(info) <==> Total(info) > 0 || info.worldGen
  {
  }

  /** Increments the counter of a kind, leaving everything else as it was. */
  function Bump(info: NamespaceInfo, k: Kind): (r: NamespaceInfo)
    ensures Total(r) == Total(info) + (if k == Other then 0 else 1)
    ensures r.worldGen == info.worldGen
  {
    match k
    case Function => info.(functions := info.functions + 1)
    case Advancement => info.(advancements := info.advancements + 1)
    case Recipe => info.(recipes := info.recipes + 1)
    case LootTable => info.(lootTables := info.lootTables + 1)
    case Predicate => info.(predicates := info.predicates + 1)
    case Tag => info.(tags := info.tags + 1)
    case Other => info
  }

  /** Bumping a kind increments its counter by one and leaves the others. */
  lemma BumpCounter(info: NamespaceInfo, k: Kind, j: Kind)
    ensures Counter(Bump(info, k), j) == Counter(info, j) + (if j == k && k != Other then 1 else 0)
  {
  }

  // ---------------------------------------------------------------------
  // The directory scan (collect_namespace_info)

  /** The category of a file found under a namespace directory: by its
      extension, then, for JSON files, by the first matching category
      directory at the start of its relative path. */
  function DirKind(rel: string): Kind {
    var ext := FileExtension(FileName(rel));
    if ext == Some("mcfunction") then Function
    else if ext == Some("json") then
      if StartsWith(rel, "advancement/") then Advancement
      else if StartsWith(rel, "recipe/") then Recipe
      else if StartsWith(rel, "loot_table/") then LootTable
      else if StartsWith(rel, "predicate/") then Predicate
      else if StartsWith(rel, "tags/") then Tag
      else Other
    else Other
  }

  /** Whether the last segment of a relative path has extension e: it ends
      with "." + e after at least one more character. */
  predicate HasExtension(rel: string, e: string) {
    EndsWith(FileName(rel), "." + e) && |FileName(rel)| > |e| + 1
  }

  /** A file is a function exactly when it has the extension "mcfunction";
      it is counted in one of the JSON categories exactly when it has the
      extension "json" and its relative path starts with that category's
      directory. The category directories differ in their first letter, so
      at most one of them matches. */
  lemma DirKindMeaning(rel: string)
    ensures DirKind(rel) == Function <==> HasExtension(rel, "mcfunction")
    ensures DirKind(rel) == Advancement <==> HasExtension(rel, "json") && StartsWith(rel, "advancement/")
    ensures DirKind(rel) == Recipe <==> HasExtension(rel, "json") && StartsWith(rel, "recipe/")
    ensures DirKind(rel) == LootTable <==> HasExtension(rel, "json") && StartsWith(rel, "loot_table/")
    ensures DirKind(rel) == Predicate <==> HasExtension(rel, "json") && StartsWith(rel, "predicate/")
    ensures DirKind(rel) == Tag <==> HasExtension(rel, "json") && StartsWith(rel, "tags/")
  {
    ExtensionIff(FileName(rel), "mcfunction");
    ExtensionIff(FileName(rel), "json");
    PrefixHead(rel, "advancement/");
    PrefixHead(rel, "recipe/");
    PrefixHead(rel, "loot_table/");
    PrefixHead(rel, "predicate/");
    PrefixHead(rel, "tags/");
  }

  /** A string starting with a non-empty prefix starts with its first
      character. */
  lemma PrefixHead(s: string, prefix: string)
    requires |prefix| > 0
    ensures StartsWith(s, prefix) ==> s[0] == prefix[0]
  {
    if StartsWith(s, prefix) {
      assert s[..|prefix|][0] == prefix[0];
    }
  }

  /** Whether a file sets the worldgen flag in the directory scan. */
  predicate UnderWorldGen(rel: string) {
    StartsWith(rel, "worldgen/")
  }

  /** One step of a tally: set the worldgen flag when the item calls for
      it, then bump the item's counter. The classification is a parameter,
      so that the facts about tallies are proved once for any of them. */
  function StepBy(info: NamespaceInfo, x: string, kindOf: string -> Kind, flags: string -> bool): NamespaceInfo {
    Bump(if flags(x) then info.(worldGen := true) else info, kindOf(x))
  }

  /** The tally of a sequence of items, one step per item, in order. */
  function TallyBy(xs: seq<string>, kindOf: string -> Kind, flags: string -> bool): NamespaceInfo
    decreases |xs|
  {
    if |xs| == 0 then EmptyInfo
    else StepBy(TallyBy(xs[..|xs| - 1], kindOf, flags), xs[|xs| - 1], kindOf, flags)
  }

  /** A tally of a prefix grows by the step of the next item. */
  lemma TallyByStep(xs: seq<string>, i: nat, kindOf: string -> Kind, flags: string -> bool)
    requires i < |xs|
    ensures TallyBy(xs[..i + 1], kindOf, flags) == StepBy(TallyBy(xs[..i], kindOf, flags), xs[i], kindOf, flags)
  {
    assert xs[..i + 1][..i] == xs[..i];
  }

  /** The tally of a namespace directory's files, in walk order. */
  function Tally(files: seq<string>): NamespaceInfo {
    TallyBy(files, DirKind, UnderWorldGen)
  }

  /** The match on the extension in collect_namespace_info. */
  method ClassifyFile(rel: string) returns (kind: Kind)
    ensures kind == DirKind(rel)
  {
    var ext := FileExtension(FileName(rel));
    kind := Other;
    if ext == Some("mcfunction") {
      kind := Function;
    } else if ext == Some("json") {
      if StartsWith(rel, "advancement/") {
        kind := Advancement;
      } else if StartsWith(rel, "recipe/") {
        kind := Recipe;
      } else if StartsWith(rel, "loot_table/") {
        kind := LootTable;
      } else if StartsWith(rel, "predicate/") {
        kind := Predicate;
      } else if StartsWith(rel, "tags/") {
        kind := Tag;
      }
    }
  }

  /** collect_namespace_info: one pass over the files of a namespace. */
  method CollectNamespaceInfo(files: seq<string>) returns (info: NamespaceInfo)
    ensures info == Tally(files)
  {
    info := EmptyInfo;
    for i := 0 to |files|
      invariant info == TallyBy(files[..i], DirKind, UnderWorldGen)
    {
      TallyByStep(files, i, DirKind, UnderWorldGen);
      var rel := files[i];
      ghost var next := StepBy(info, rel, DirKind, UnderWorldGen);
      if StartsWith(rel, "worldgen/") {
        info := info.(worldGen := true);
      }
      var kind := ClassifyFile(rel);
      info := Bump(info, kind);
      assert info == next;
    }
    assert files[..|files|] == files;
  }

  /** The number of items of a kind. */
  function CountBy(xs: seq<string>, kindOf: string -> Kind, k: Kind): (n: nat)
    ensures n <= |xs|
    decreases |xs|
  {
    if |xs| == 0 then 0
    else CountBy(xs[..|xs| - 1], kindOf, k) + (if kindOf(xs[|xs| - 1]) == k then 1 else 0)
  }

  /** A tally counts the items of each kind, each item at most once. */
  lemma {:induction false} TallyByCounts(xs: seq<string>, kindOf: string -> Kind, flags: string -> bool)
    ensures forall k :: k != Other ==> Counter(TallyBy(xs, kindOf, flags), k) == CountBy(xs, kindOf, k)
    ensures Total(TallyBy(xs, kindOf, flags)) == |xs| - CountBy(xs, kindOf, Other)
    decreases |xs|
  {
    if |xs| > 0 {
      var front := xs[..|xs| - 1];
      TallyByCounts(front, kindOf, flags);
      var last := xs[|xs| - 1];
      var prev := TallyBy(front, kindOf, flags);
      forall k | k != Other
        ensures Counter(TallyBy(xs, kindOf, flags), k) == CountBy(xs, kindOf, k)
      {
        BumpCounter(if flags(last) then prev.(worldGen := true) else prev, kindOf(last), k);
      }
    }
  }

  /** A tally's flag is set exactly when some item calls for it. */
  lemma {:induction false} TallyByFlag(xs: seq<string>, kindOf: string -> Kind, flags: string -> bool)
    ensures TallyBy(xs, kindOf, flags).worldGen <==> exists i :: 0 <= i < |xs| && flags(xs[i])
    decreases |xs|
  {
    if |xs| > 0 {
      var front := xs[..|xs| - 1];
      TallyByFlag(front, kindOf, flags);
      StepByFlag(TallyBy(front, kindOf, flags), xs[|xs| - 1], kindOf, flags);
      AnyFlagSplit(xs, front, flags);
    }
  }

  /** A step sets the flag iff it was set or the item sets it. */
  lemma StepByFlag(info: NamespaceInfo, x: string, kindOf: string -> Kind, flags: string -> bool)
    ensures StepBy(info, x, kindOf, flags).worldGen == (info.worldGen || flags(x))
  {
  }

  /** Some item sets the flag iff some item of the front does or the last
      one does. */
  lemma AnyFlagSplit(xs: seq<string>, front: seq<string>, flags: string -> bool)
    requires |xs| > 0 && front == xs[..|xs| - 1]
    ensures (exists i :: 0 <= i < |xs| && flags(xs[i]))
            <==> (exists i :: 0 <= i < |front| && flags(front[i])) || flags(xs[|xs| - 1])
  {
    if i :| 0 <= i < |xs| && flags(xs[i]) {
      if i < |front| {
        assert flags(front[i]);
      }
    }
    if i :| 0 <= i < |front| && flags(front[i]) {
      assert flags(xs[i]);
    }
  }

  /** collect_namespace_info counts the files of each category, each file
      at most once, and sets the worldgen flag exactly when some file lies
      under "worldgen/". */
  lemma TallyMeaning(files: seq<string>)
    ensures forall k :: k != Other ==> Counter(Tally(files), k) == CountBy(files, DirKind, k)
    ensures Total(Tally(files)) <= |files|
    ensures Tally(files).worldGen <==> exists i :: 0 <= i < |files| && StartsWith(files[i], "worldgen/")
  {
    TallyByCounts(files, DirKind, UnderWorldGen);
    TallyByFlag(files, DirKind, UnderWorldGen);
  }

  // ---------------------------------------------------------------------
  // The archive scan (the loop of collect_info_from_zip)

  /** The category of an archive entry: by the suffix of its last segment,
      then, for JSON files, by the first category directory found anywhere
      in its full name. */
  function ZipKind(path: string, last: string): Kind {
    if EndsWith(last, ".mcfunction") then Function
    else if EndsWith(last, ".json") then
      if Contains(path, "/advancement/") then Advancement
      else if Contains(path, "/recipe/") then Recipe
      else if Contains(path, "/loot_table/") then LootTable
      else if Contains(path, "/predicate/") then Predicate
      else if Contains(path, "/tags/") then Tag
      else Other
    else Other
  }

  /** The loop state: the namespace of the current run, its tally, and the
      namespaces recorded so far. */
  datatype ScanState = ScanState(current: string, info: NamespaceInfo, namespaces: map<string, NamespaceInfo>)

  const StartState := ScanState("", EmptyInfo, map[])

  /** The namespace and category of an entry name: its first segment under
      "data/" and the category of its last segment, when the name has at
      least two segments there. */
  function ZipEntry(path: string): (r: Option<(string, Kind)>)
    ensures r.Some? ==> StartsWith(path, "data/") && '/' !in r.value.0
  {
    match StripPrefix(path, "data/")
    case None => None
    case Some(dataPath) => EntryOf(path, Split(dataPath, '/'))
  }

  /** The namespace and category read off the segments of an entry name
      under "data/". */
  function EntryOf(path: string, parts: seq<string>): Option<(string, Kind)> {
    if |parts| >= 2 then Some((parts[0], ZipKind(path, parts[|parts| - 1]))) else None
  }

  /** ZipEntry of a name under "data/" is read off the segments of the rest. */
  lemma ZipEntryParts(path: string, dataPath: string)
    requires StripPrefix(path, "data/") == Some(dataPath)
    ensures ZipEntry(path) == EntryOf(path, Split(dataPath, '/'))
  {
  }

  /** Segments with a given head and a non-empty tail name the head as
      namespace and classify the entry by the tail's last segment. */
  lemma EntryOfCons(path: string, head: string, tail: seq<string>)
    requires |tail| > 0
    ensures EntryOf(path, [head] + tail) == Some((head, ZipKind(path, tail[|tail| - 1])))
  {
    var s := [head] + tail;
    assert |s| >= 2 && s[0] == head && s[|s| - 1] == tail[|tail| - 1];
  }

  /** An entry whose name is "data/" + ns + "/" + rest, for a namespace
      ns without '/', lies in namespace ns and is classified by the last
      segment of rest. */
  lemma ZipEntryOf(path: string, ns: string, rest: string)
    requires '/' !in ns && StripPrefix(path, "data/") == Some(ns + "/" + rest)
    ensures ZipEntry(path) == Some((ns, ZipKind(path, FileName(rest))))
  {
    var dataPath := ns + "/" + rest;
    assert dataPath == ns + ['/'] + rest;
    SplitFirst(ns, '/', rest);
    ZipEntryParts(path, dataPath);
    FileNameIsLast(rest);
    EntryOfCons(path, ns, Split(rest, '/'));
  }

  /** An entry lies in a namespace exactly when its name starts with
      "data/" and holds another '/' after that; the namespace is the text
      between "data/" and that '/'. */
  lemma ZipEntryMeaning(path: string)
    ensures ZipEntry(path).Some? <==> StartsWith(path, "data/") && '/' in path[5..]
    ensures ZipEntry(path).Some? ==> StartsWith(path, "data/" + ZipEntry(path).value.0 + "/")
  {
    if StartsWith(path, "data/") && '/' in path[5..] {
      ZipEntryFound(path);
    }
    if ZipEntry(path).Some? {
      ZipEntryPrefix(path);
    }
  }

  /** A name under "data/" with another '/' lies in a namespace. */
  lemma ZipEntryFound(path: string)
    requires StartsWith(path, "data/") && '/' in path[5..]
    ensures ZipEntry(path).Some?
  {
    var d := path[5..];
    var i := IndexOf(d, '/');
    assert d == d[..i] + "/" + d[i + 1..];
    ZipEntryOf(path, d[..i], d[i + 1..]);
  }

  /** The namespace of an entry is followed by a '/' in its name. */
  lemma ZipEntryPrefix(path: string)
    requires ZipEntry(path).Some?
    ensures '/' in path[5..] && StartsWith(path, "data/" + ZipEntry(path).value.0 + "/")
  {
    var d := path[5..];
    ZipEntryParts(path, d);
    SplitHead(d, '/');
    DataPrefix(path, Split(d, '/')[0]);
  }

  /** A name "data/" + ns + "/" + ... starts with that text. */
  lemma DataPrefix(path: string, ns: string)
    requires StartsWith(path, "data/") && |ns| < |path[5..]|
    requires path[5..][..|ns|] == ns && path[5..][|ns|] == '/'
    ensures '/' in path[5..] && StartsWith(path, "data/" + ns + "/")
  {
    var p := "data/" + ns + "/";
    assert |p| == |ns| + 6;
    forall k | 0 <= k < |p|
      ensures path[k] == p[k]
    {
      if k < 5 {
        assert path[..5][k] == path[k];
      } else if k < |ns| + 5 {
        assert path[5..][..|ns|][k - 5] == path[k];
      }
    }
    assert path[..|p|] == p;
  }

  /** Whether an entry sets the worldgen flag in the archive scan. */
  predicate ZipWorldGen(path: string) {
    Contains(path, "/worldgen/")
  }

  /** The tally of the current run, and the recorded namespaces, once the
      run ends: a run with content replaces whatever was recorded for its
      namespace. */
  function Flush(st: ScanState): (m: map<string, NamespaceInfo>)
    ensures st.current != "" && HasContent(st.info) ==> m == st.namespaces[st.current := st.info]
    ensures !(st.current != "" && HasContent(st.info)) ==> m == st.namespaces
  {
    if st.current != "" && HasContent(st.info) then st.namespaces[st.current := st.info]
    else st.namespaces
  }

  /** One iteration of the archive loop, given the entry's namespace and
      category (if any) and whether it sets the worldgen flag: a change of
      namespace flushes the current run and starts an empty one; then the
      entry is tallied. */
  function ZipStep(st: ScanState, entry: Option<(string, Kind)>, flag: bool): ScanState {
    match entry
    case None => st
    case Some((ns, kind)) =>
      var changed := st.current != "" && ns != st.current;
      var recorded := if changed then Flush(st) else st.namespaces;
      var run := if changed then EmptyInfo else st.info;
      ScanState(ns, Bump(if flag then run.(worldGen := true) else run, kind), recorded)
  }

  /** One iteration of the archive loop on an entry name. */
  function ZipStepBy(st: ScanState, path: string, entryOf: string -> Option<(string, Kind)>,
                     flags: string -> bool): ScanState
  {
    ZipStep(st, entryOf(path), flags(path))
  }

  /** The loop state after a sequence of entry names. */
  function ZipFoldBy(names: seq<string>, entryOf: string -> Option<(string, Kind)>,
                     flags: string -> bool): ScanState
    decreases |names|
  {
    if |names| == 0 then StartState
    else ZipStepBy(ZipFoldBy(names[..|names| - 1], entryOf, flags), names[|names| - 1], entryOf, flags)
  }

  /** The loop state after a prefix grows by the step of the next entry. */
  lemma ZipFoldByStep(names: seq<string>, i: nat, entryOf: string -> Option<(string, Kind)>,
                      flags: string -> bool)
    requires i < |names|
    ensures ZipFoldBy(names[..i + 1], entryOf, flags)
            == ZipStepBy(ZipFoldBy(names[..i], entryOf, flags), names[i], entryOf, flags)
  {
    assert names[..i + 1][..i] == names[..i];
  }

  /** The namespace table of an archive: the loop followed by the final
      flush. */
  function ZipNamespaces(names: seq<string>): map<string, NamespaceInfo> {
    Flush(ZipFoldBy(names, ZipEntry, ZipWorldGen))
  }

  /** The match on the last segment in collect_info_from_zip. */
  method ClassifyEntry(path: string, last: string) returns (kind: Kind)
    ensures kind == ZipKind(path, last)
  {
    kind := Other;
    if EndsWith(last, ".mcfunction") {
      kind := Function;
    } else if EndsWith(last, ".json") {
      if Contains(path, "/advancement/") {
        kind := Advancement;
      } else if Contains(path, "/recipe/") {
        kind := Recipe;
      } else if Contains(path, "/loot_table/") {
        kind := LootTable;
      } else if Contains(path, "/predicate/") {
        kind := Predicate;
      } else if Contains(path, "/tags/") {
        kind := Tag;
      }
    }
  }

  /** The head of the loop body of collect_info_from_zip: strip "data/",
      split on '/', and classify the entry when it has two segments. */
  method ReadEntryName(path: string) returns (entry: Option<(string, Kind)>)
    ensures entry == ZipEntry(path)
  {
    entry := None;
    var dataPath := StripPrefix(path, "data/");
    if dataPath.Some? {
      var parts := Split(dataPath.value, '/');
      if |parts| >= 2 {
        var kind := ClassifyEntry(path, parts[|parts| - 1]);
        entry := Some((parts[0], kind));
      }
    }
  }

  /** The scan loop of collect_info_from_zip, with its final flush. */
  method ScanZip(names: seq<string>) returns (namespaces: map<string, NamespaceInfo>)
    ensures namespaces == ZipNamespaces(names)
  {
    namespaces := map[];
    var current := "";
    var info := EmptyInfo;
    for i := 0 to |names|
      invariant ScanState(current, info, namespaces) == ZipFoldBy(names[..i], ZipEntry, ZipWorldGen)
    {
      ZipFoldByStep(names, i, ZipEntry, ZipWorldGen);
      var path := names[i];
      var entry := ReadEntryName(path);
      ghost var next := ZipStep(ScanState(current, info, namespaces), entry, ZipWorldGen(path));
      if entry.Some? {
        var (ns, kind) := entry.value;
        if current != "" && ns != current {
          if HasContent(info) {
            namespaces := namespaces[current := info];
          }
          info := EmptyInfo;
        }
        current := ns;
        if Contains(path, "/worldgen/") {
          info := info.(worldGen := true);
        }
        info := Bump(info, kind);
      }
      assert ScanState(current, info, namespaces) == next;
    }
    assert names[..|names|] == names;
    if current != "" && HasContent(info) {
      namespaces := namespaces[current := info];
    }
  }

  /** Some entry lies in namespace ns. */
  predicate InSomeEntry(ns: string, names: seq<string>, entryOf: string -> Option<(string, Kind)>) {
    exists i :: 0 <= i < |names| && entryOf(names[i]).Some? && entryOf(names[i]).value.0 == ns
  }

  /** All recorded namespaces have content. */
  predicate AllHaveContent(m: map<string, NamespaceInfo>) {
    forall ns :: ns in m ==> HasContent(m[ns])
  }

  /** One iteration of the archive loop records only a run with content. */
  lemma ZipStepContent(st: ScanState, entry: Option<(string, Kind)>, flag: bool)
    requires AllHaveContent(st.namespaces)
    ensures AllHaveContent(ZipStep(st, entry, flag).namespaces)
  {
    match entry
    case None =>
    case Some((ns, kind)) =>
      if st.current != "" && ns != st.current {
        FlushContent(st);
      }
  }

  /** Recording the current run keeps every recorded namespace non-empty. */
  lemma FlushContent(st: ScanState)
    requires AllHaveContent(st.namespaces)
    ensures AllHaveContent(Flush(st))
  {
    if st.current != "" && HasContent(st.info) {
      var m := st.namespaces[st.current := st.info];
      forall ns | ns in m
        ensures HasContent(m[ns])
      {
        if ns != st.current {
          assert m[ns] == st.namespaces[ns];
        }
      }
    }
  }

  /** The archive loop records only namespaces with content. */
  lemma {:induction false} ZipFoldContent(names: seq<string>, entryOf: string -> Option<(string, Kind)>,
                                          flags: string -> bool)
    ensures AllHaveContent(ZipFoldBy(names, entryOf, flags).namespaces)
    decreases |names|
  {
    if |names| > 0 {
      var front := names[..|names| - 1];
      ZipFoldContent(front, entryOf, flags);
      var last := names[|names| - 1];
      ZipStepContent(ZipFoldBy(front, entryOf, flags), entryOf(last), flags(last));
    }
  }

  /** The archive loop records, and runs, only namespaces some entry lies
      in. */
  lemma {:induction false} ZipFoldKeys(names: seq<string>, entryOf: string -> Option<(string, Kind)>,
                                       flags: string -> bool)
    ensures var st := ZipFoldBy(names, entryOf, flags);
      (forall ns :: ns in st.namespaces ==> InSomeEntry(ns, names, entryOf))
      && (st.current != "" ==> InSomeEntry(st.current, names, entryOf))
    decreases |names|
  {
    if |names| > 0 {
      var front := names[..|names| - 1];
      ZipFoldKeys(front, entryOf, flags);
      var prev := ZipFoldBy(front, entryOf, flags);
      var st := ZipFoldBy(names, entryOf, flags);
      assert st == ZipStepBy(prev, names[|names| - 1], entryOf, flags);
      forall ns | InSomeEntry(ns, front, entryOf)
        ensures InSomeEntry(ns, names, entryOf)
      {
        var i :| 0 <= i < |front| && entryOf(front[i]).Some? && entryOf(front[i]).value.0 == ns;
        assert names[i] == front[i];
      }
      var last := |names| - 1;
      match entryOf(names[last])
      case None =>
        assert st == prev;
      case Some((ns', kind)) =>
        assert st.current == ns';
        assert InSomeEntry(ns', names, entryOf) by {
          assert entryOf(names[last]).value.0 == ns';
        }
        assert st.namespaces.Keys <= prev.namespaces.Keys + {prev.current};
        assert prev.current != "" ==> InSomeEntry(prev.current, names, entryOf);
        forall ns | ns in st.namespaces
          ensures InSomeEntry(ns, names, entryOf)
        {
          if ns !in prev.namespaces {
            assert ns == prev.current && prev.current != "";
          }
        }
    }
  }

  /** The archive scan never records a namespace without content, and
      records only namespaces that some entry lies in. */
  lemma ZipNamespacesMeaning(names: seq<string>)
    ensures forall ns :: ns in ZipNamespaces(names) ==> HasContent(ZipNamespaces(names)[ns])
    ensures forall ns :: ns in ZipNamespaces(names) ==> InSomeEntry(ns, names, ZipEntry)
  {
    ZipFoldContent(names, ZipEntry, ZipWorldGen);
    ZipFoldKeys(names, ZipEntry, ZipWorldGen);
  }

  /** When the namespace changes, the finished run replaces what was
      recorded for its namespace instead of adding to it: if a namespace's
      entries are split into two runs, the later run's tally is what
      remains. */
  lemma FlushReplaces(st: ScanState, path: string)
    requires ZipEntry(path).Some? && st.current != "" && ZipEntry(path).value.0 != st.current
    requires HasContent(st.info)
    ensures ZipStepBy(st, path, ZipEntry, ZipWorldGen).namespaces == st.namespaces[st.current := st.info]
  {
  }

  // ---------------------------------------------------------------------
  // The namespace table of a datapack directory (collect_info)

  /** An entry of the data directory: a namespace directory with the
      relative paths of its files, or anything else. */
  datatype DataEntry = NamespaceDir(name: string, files: seq<string>) | DataFile(name: string)

  /** The namespace table of a data directory, in read_dir order, given
      the tally of a namespace's files. */
  function DirNamespacesBy(entries: seq<DataEntry>, tally: seq<string> -> NamespaceInfo)
    : (m: map<string, NamespaceInfo>)
    ensures forall ns :: ns in m ==> HasContent(m[ns])
    ensures forall ns :: ns in m ==>
      exists i :: 0 <= i < |entries| && entries[i].NamespaceDir? && entries[i].name == ns
    decreases |entries|
  {
    if |entries| == 0 then map[]
    else
      var n := |entries| - 1;
      var front := DirNamespacesBy(entries[..n], tally);
      assert forall i :: 0 <= i < n ==> entries[..n][i] == entries[i];
      var e := entries[n];
      if e.NamespaceDir? && HasContent(tally(e.files)) then front[e.name := tally(e.files)] else front
  }

  /** A namespace directory with content that no later entry shares a
      name with is recorded, with its tally. */
  lemma {:induction false} LastDirRecorded(entries: seq<DataEntry>, tally: seq<string> -> NamespaceInfo, i: nat)
    requires i < |entries| && entries[i].NamespaceDir? && HasContent(tally(entries[i].files))
    requires forall j :: i < j < |entries| ==> entries[j].name != entries[i].name
    ensures entries[i].name in DirNamespacesBy(entries, tally)
    ensures DirNamespacesBy(entries, tally)[entries[i].name] == tally(entries[i].files)
    decreases |entries|
  {
    var n := |entries| - 1;
    if i < n {
      var front := entries[..n];
      assert front[i] == entries[i];
      forall j | i < j < n
        ensures front[j].name != front[i].name
      {
        assert front[j] == entries[j];
      }
      LastDirRecorded(front, tally, i);
      assert entries[n].name != entries[i].name;
    }
  }

  /** The namespace table of a data directory: the namespace directories
      with content, each with the tally of its files. */
  function DirNamespaces(entries: seq<DataEntry>): map<string, NamespaceInfo> {
    DirNamespacesBy(entries, Tally)
  }

  /** What the path "data" of a datapack directory is: missing, something
      read_dir cannot list (a file), or a directory with its entries in
      read_dir order. */
  datatype DataDir = NoData | DataNotDir | DataListing(entries: seq<DataEntry>)

  /** The namespace loop of collect_info: no data directory gives no
      namespaces, and a data path that cannot be listed is an error. */
  method CollectNamespaces(data: DataDir) returns (r: Result<map<string, NamespaceInfo>, InfoError>)
    ensures data.NoData? ==> r == Ok(map[])
    ensures data.DataNotDir? ==> r == Err(DataUnreadable)
    ensures data.DataListing? ==> r == Ok(DirNamespaces(data.entries))
  {
    if data.DataNotDir? {
      return Err(DataUnreadable);
    }
    var namespaces := map[];
    if data.DataListing? {
      var entries := data.entries;
      for i := 0 to |entries|
        invariant namespaces == DirNamespacesBy(entries[..i], Tally)
      {
        assert entries[..i + 1][..i] == entries[..i];
        var entry := entries[i];
        if entry.NamespaceDir? {
          var info := CollectNamespaceInfo(entry.files);
          if HasContent(info) {
            namespaces := namespaces[entry.name := info];
          }
        }
      }
      assert entries[..|entries|] == entries;
    }
    r := Ok(namespaces);
  }

  // ---------------------------------------------------------------------
  // The two drivers

  /** Everything `info` reports about a datapack. */
  datatype DatapackInfo = DatapackInfo(
    name: string,
    manifest: Manifest,
    namespaces: map<string, NamespaceInfo>)

  /** The stem of an archive name is the name without ".zip", unless the
      name is ".zip" itself. */
  lemma ZipStem(name: string)
    requires EndsWith(name, ".zip")
    ensures |name| > 4 ==> FileStem(name) + ".zip" == name
    ensures |name| == 4 ==> FileStem(name) == ".zip"
  {
    var i := |name| - 4;
    assert name[i] == '.' && name[i + 1..] == "zip";
    assert LastIndexOf(name, '.') == Some(i);
  }

  /** The names of an archive's entries, in index order. */
  function EntryNames(entries: seq<Entry>): (names: seq<string>)
    ensures |names| == |entries|
    ensures forall i :: 0 <= i < |entries| ==> names[i] == entries[i].name
  {
    seq(|entries|, i requires 0 <= i < |entries| => entries[i].name)
  }

  /** `info <path>`: find the archive, its manifest and its namespaces. The
      file system is a map from path to archive. */
  method InfoFromZip(path: string, archives: map<string, seq<Entry>>) returns (r: Result<DatapackInfo, InfoError>)
    ensures ZipPath(path) !in archives ==> r == Err(ZipNotFound(ZipPath(path)))
    ensures ZipPath(path) in archives
      && (forall i :: 0 <= i < |archives[ZipPath(path)]| ==> !IsManifestName(archives[ZipPath(path)][i].name))
      ==> r == Err(ManifestNotInZip)
    ensures forall i :: ZipPath(path) in archives && FirstManifestAt(archives[ZipPath(path)], i) ==>
      var manifest := ManifestOf(archives[ZipPath(path)][i].data);
      && (manifest.Err? ==> r == Err(manifest.error))
      && (manifest.Ok? ==>
            r == Ok(DatapackInfo(FileStem(FileName(ZipPath(path))), manifest.value,
                                 ZipNamespaces(EntryNames(archives[ZipPath(path)])))))
  {
    var full := ZipPath(path);
    if full !in archives {
      return Err(ZipNotFound(full));
    }
    var entries := archives[full];
    var content := FindPackMcmeta(entries);
    if content.None? {
      return Err(ManifestNotInZip);
    }
    var manifest := ReadManifest(content.value);
    if manifest.Err? {
      return Err(manifest.error);
    }
    var namespaces := ScanZip(EntryNames(entries));
    r := Ok(DatapackInfo(FileStem(FileName(full)), manifest.value, namespaces));
  }

  /** `info` inside a datapack directory: the manifest in the current
      directory, whose name is the datapack's name, and the namespaces of
      its data directory; a data path that is not a directory stops it
      once the manifest has been read. */
  method InfoFromDir(mcmeta: Option<Content>, cwdName: string, data: DataDir)
    returns (r: Result<DatapackInfo, InfoError>)
    ensures mcmeta.None? ==> r == Err(NotInDatapack)
    ensures mcmeta.Some? && ManifestOf(mcmeta.value).Err? ==> r == Err(ManifestOf(mcmeta.value).error)
    ensures mcmeta.Some? && ManifestOf(mcmeta.value).Ok? && data.DataNotDir? ==> r == Err(DataUnreadable)
    ensures mcmeta.Some? && ManifestOf(mcmeta.value).Ok? && !data.DataNotDir? ==>
      r.Ok? && r.value.name == cwdName && r.value.manifest == ManifestOf(mcmeta.value).value
      && r.value.namespaces == (if data.DataListing? then DirNamespaces(data.entries) else map[])
  {
    if mcmeta.None? {
      return Err(NotInDatapack);
    }
    var manifest := ReadManifest(mcmeta.value);
    if manifest.Err? {
      return Err(manifest.error);
    }
    var namespaces :- CollectNamespaces(data);
    r := Ok(DatapackInfo(cwdName, manifest.value, namespaces));
  }
}
