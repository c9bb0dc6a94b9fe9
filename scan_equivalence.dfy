// The two namespace scans of the info command agree on archive entry
// names laid out as the zip and pack commands write a data directory:
// counting a datapack directory (collect_namespace_info over each
// namespace directory) gives the same table as counting the entry names
// of its files (the loop of collect_info_from_zip), one contiguous run
// per namespace directory, as long as each file's category directory is
// the only segment of its name that carries a category's name and no name
// holds a '\'. For such names the archive name below is the entry name
// add_directory_to_zip writes (ZipNameIsEntryName).

module ScanEquivalence {
  import opened Wrappers
  import opened Text
  import opened InfoScan
  import Archive

  /** The archive name of a file of namespace ns, given its path relative
      to the namespace directory. */
  function ZipName(ns: string, rel: string): string {
    "data/" + ns + "/" + rel
  }

  /** The archive names of one namespace directory's files, in walk order. */
  function Block(ns: string, files: seq<string>): (names: seq<string>)
    ensures |names| == |files|
    decreases |files|
  {
    if |files| == 0 then []
    else Block(ns, files[..|files| - 1]) + [ZipName(ns, files[|files| - 1])]
  }

  /** The archive names of a data directory's namespace directories, one
      contiguous run per directory, in read_dir order. */
  function ArchiveNames(entries: seq<DataEntry>): seq<string>
    decreases |entries|
  {
    if |entries| == 0 then []
    else ArchiveNames(entries[..|entries| - 1]) + RunOf(entries[|entries| - 1])
  }

  /** The archive names of one data entry: a namespace directory's files,
      or the one name of a plain file. */
  function RunOf(e: DataEntry): seq<string> {
    if e.NamespaceDir? then Block(e.name, e.files) else ["data/" + e.name]
  }

  /** The archive names after one more data entry. */
  lemma ArchiveSnoc(skipped: seq<string>, front: seq<DataEntry>, e: DataEntry)
    ensures skipped + ArchiveNames(front + [e]) == skipped + ArchiveNames(front) + RunOf(e)
  {
    assert (front + [e])[..|front|] == front;
  }

  /** The names of a data directory's entries. */
  function Names(entries: seq<DataEntry>): set<string> {
    set i | 0 <= i < |entries| :: entries[i].name
  }

  /** The category directory dir (with its trailing '/') appears in a
      file's archive name only as the start of its relative path. */
  predicate OnlyAtStart(ns: string, rel: string, dir: string) {
    Contains(ZipName(ns, rel), "/" + dir) ==> StartsWith(rel, dir)
  }

  /** A file both scans classify alike: its path holds no '\' (which the
      archive would turn into '/'), its file name is more than a bare
      ".mcfunction" or ".json", and no category directory name appears in
      its archive name except at the start of its relative path. */
  predicate CleanFile(ns: string, rel: string) {
    '\\' !in rel
    && FileName(rel) != ".mcfunction" && FileName(rel) != ".json"
    && OnlyAtStart(ns, rel, "advancement/") && OnlyAtStart(ns, rel, "recipe/")
    && OnlyAtStart(ns, rel, "loot_table/") && OnlyAtStart(ns, rel, "predicate/")
    && OnlyAtStart(ns, rel, "tags/") && OnlyAtStart(ns, rel, "worldgen/")
  }

  /** A data entry whose name is a non-empty segment without '\' and, for
      a namespace directory, whose files are all clean. */
  predicate CleanEntry(e: DataEntry) {
    e.name != "" && '/' !in e.name && '\\' !in e.name
    && (e.NamespaceDir? ==> forall k :: 0 <= k < |e.files| ==> CleanFile(e.name, e.files[k]))
  }

  /** For names without '\', the archive name of a file of namespace ns is
      the entry name add_directory_to_zip gives it: the components of its
      path below the datapack, joined by '/'. */
  lemma ZipNameIsEntryName(ns: string, comps: seq<string>)
    requires |comps| > 0 && '\\' !in ns && '\\' !in Join(comps, "/")
    ensures ZipName(ns, Join(comps, "/")) == Archive.EntryName(["data", ns] + comps)
  {
    var name := ZipName(ns, Join(comps, "/"));
    JoinedDataPath(ns, comps);
    assert '\\' !in name;
    Archive.ReplaceAbsent(name, '\\', '/');
  }

  /** The components of a file's path below the datapack, joined by '/'. */
  lemma JoinedDataPath(ns: string, comps: seq<string>)
    requires |comps| > 0
    ensures Join(["data", ns] + comps, "/") == ZipName(ns, Join(comps, "/"))
  {
    JoinTwo("data", ns, comps, "/");
    ZipNameParts(ns, Join(comps, "/"));
  }

  /** Joining two heads and a non-empty tail. */
  lemma JoinTwo(a: string, b: string, tail: seq<string>, sep: string)
    requires |tail| > 0
    ensures Join([a, b] + tail, sep) == a + sep + (b + sep + Join(tail, sep))
  {
    var all := [a, b] + tail;
    assert all[1..] == [b] + tail;
    JoinCons(b, tail, sep);
  }

  /** The archive name, built up piece by piece. */
  lemma ZipNameParts(ns: string, rel: string)
    ensures "data" + "/" + (ns + "/" + rel) == ZipName(ns, rel)
  {
    assert "data" + "/" == "data/";
  }

  /** The archive name of a plain file in the data directory is the entry
      name add_directory_to_zip gives it. */
  lemma DataFileIsEntryName(name: string)
    requires '\\' !in name
    ensures RunOf(DataFile(name)) == [Archive.EntryName(["data", name])]
  {
    var all := ["data", name];
    assert all[1..] == [name];
    assert Join(all, "/") == "data/" + name;
    Archive.ReplaceAbsent(Join(all, "/"), '\\', '/');
  }

  /** A plain file of the data directory lies in no namespace. */
  lemma DataFileIgnored(name: string)
    requires '/' !in name
    ensures ZipEntry("data/" + name).None?
  {
    var path := "data/" + name;
    ZipEntryMeaning(path);
    assert path[5..] == name;
  }

  /** The loop state of the archive scan after some entry names. */
  function Scan(names: seq<string>): ScanState {
    ZipFoldBy(names, ZipEntry, ZipWorldGen)
  }

  /** Before the first run the tally is empty. */
  predicate Settled(st: ScanState) {
    st.current == "" ==> st.info == EmptyInfo
  }

  /** For a clean category directory, the archive scan's test (the
      directory name between slashes anywhere in the archive name) agrees
      with the directory scan's test (the relative path starts with it). */
  lemma CategoryAgrees(ns: string, rel: string, dir: string, slashed: string)
    requires slashed == "/" + dir && OnlyAtStart(ns, rel, dir)
    ensures Contains(ZipName(ns, rel), slashed) <==> StartsWith(rel, dir)
  {
    if StartsWith(rel, dir) {
      var name := ZipName(ns, rel);
      var i := |"data/" + ns|;
      assert name[i..] == "/" + rel;
      assert name[i..][..|slashed|] == slashed;
      ContainsAt(name, slashed, i);
    }
  }

  /** For a file name other than a bare ".mcfunction" or ".json", the
      archive scan's suffix tests agree with the directory scan's
      extension tests. */
  lemma ExtensionAgrees(last: string)
    requires last != ".mcfunction" && last != ".json"
    ensures EndsWith(last, ".mcfunction") <==> FileExtension(last) == Some("mcfunction")
    ensures EndsWith(last, ".json") <==> FileExtension(last) == Some("json")
  {
    assert "." + "mcfunction" == ".mcfunction" && "." + "json" == ".json";
    ExtensionIff(last, "mcfunction");
    ExtensionIff(last, "json");
  }

  /** The category directories, between slashes. */
  lemma SlashedDirs()
    ensures "/" + "advancement/" == "/advancement/" && "/" + "recipe/" == "/recipe/"
    ensures "/" + "loot_table/" == "/loot_table/" && "/" + "predicate/" == "/predicate/"
    ensures "/" + "tags/" == "/tags/" && "/" + "worldgen/" == "/worldgen/"
  {
  }

  /** The archive scan classifies a clean file as the directory scan does,
      and sets the worldgen flag for it exactly when the directory scan
      does. */
  lemma EntryAgrees(ns: string, rel: string)
    requires '/' !in ns && CleanFile(ns, rel)
    ensures ZipEntry(ZipName(ns, rel)) == Some((ns, DirKind(rel)))
    ensures ZipWorldGen(ZipName(ns, rel)) == UnderWorldGen(rel)
  {
    var name := ZipName(ns, rel);
    assert name[..5] == "data/" && name[5..] == ns + "/" + rel;
    ZipEntryOf(name, ns, rel);
    ExtensionAgrees(FileName(rel));
    SlashedDirs();
    CategoryAgrees(ns, rel, "advancement/", "/advancement/");
    CategoryAgrees(ns, rel, "recipe/", "/recipe/");
    CategoryAgrees(ns, rel, "loot_table/", "/loot_table/");
    CategoryAgrees(ns, rel, "predicate/", "/predicate/");
    CategoryAgrees(ns, rel, "tags/", "/tags/");
    CategoryAgrees(ns, rel, "worldgen/", "/worldgen/");
  }

  /** Entry names outside every namespace leave the loop state as it is. */
  lemma {:induction false} SkipIgnored(names: seq<string>, skipped: seq<string>)
    requires forall k :: 0 <= k < |skipped| ==> ZipEntry(skipped[k]).None?
    ensures Scan(names + skipped) == Scan(names)
    decreases |skipped|
  {
    if |skipped| == 0 {
      assert names + skipped == names;
    } else {
      var n := |skipped| - 1;
      var front := skipped[..n];
      assert (names + skipped)[..|names + skipped| - 1] == names + front;
      SkipIgnored(names, front);
    }
  }

  /** The loop state after one more entry name. */
  lemma ScanSnoc(names: seq<string>, x: string)
    ensures Scan(names + [x]) == ZipStepBy(Scan(names), x, ZipEntry, ZipWorldGen)
  {
    assert (names + [x])[..|names|] == names;
  }

  /** An entry of a namespace other than the current one starts a new run
      on an empty tally, after flushing the state before it. */
  lemma StepStart(st: ScanState, ns: string, kind: Kind, flag: bool)
    requires Settled(st) && st.current != ns
    ensures ZipStep(st, Some((ns, kind)), flag)
            == ScanState(ns, Bump(if flag then EmptyInfo.(worldGen := true) else EmptyInfo, kind), Flush(st))
  {
    if st.current == "" {
      assert Flush(st) == st.namespaces;
    } else {
      assert Flush(st) == st.namespaces[st.current := st.info] || Flush(st) == st.namespaces;
    }
  }

  /** An entry of the current namespace adds to the current run. */
  lemma StepSame(st: ScanState, kind: Kind, flag: bool)
    ensures ZipStep(st, Some((st.current, kind)), flag)
            == ScanState(st.current, Bump(if flag then st.info.(worldGen := true) else st.info, kind), st.namespaces)
  {
  }

  /** One namespace directory's run of k > 0 files, after a state whose
      current namespace differs: the run flushes the state before it and
      its tally is the directory scan's tally of those files. */
  lemma {:induction false} BlockFold(before: seq<string>, ns: string, files: seq<string>, k: nat)
    requires Settled(Scan(before)) && Scan(before).current != ns
    requires ns != "" && '/' !in ns
    requires forall j :: 0 <= j < |files| ==> CleanFile(ns, files[j])
    requires 0 < k <= |files|
    ensures Scan(before + Block(ns, files[..k])) == ScanState(ns, Tally(files[..k]), Flush(Scan(before)))
    decreases k
  {
    var f := files[k - 1];
    var x := ZipName(ns, f);
    var prev := before + Block(ns, files[..k - 1]);
    assert files[..k][..k - 1] == files[..k - 1];
    assert before + Block(ns, files[..k]) == prev + [x];
    ScanSnoc(prev, x);
    EntryAgrees(ns, f);
    var st := Scan(prev);
    assert ZipStepBy(st, x, ZipEntry, ZipWorldGen) == ZipStep(st, ZipEntry(x), ZipWorldGen(x));
    TallyByStep(files, k - 1, DirKind, UnderWorldGen);
    assert Tally(files[..k]) == StepBy(Tally(files[..k - 1]), f, DirKind, UnderWorldGen);
    if k == 1 {
      assert prev == before;
      assert files[..0] == [];
      assert Tally(files[..0]) == EmptyInfo;
      StepStart(st, ns, DirKind(f), UnderWorldGen(f));
    } else {
      BlockFold(before, ns, files, k - 1);
      assert st == ScanState(ns, Tally(files[..k - 1]), Flush(Scan(before)));
      StepSame(st, DirKind(f), UnderWorldGen(f));
    }
  }

  /** What the archive scan keeps in step with the directory scan after
      some entry names outside every namespace, then the runs of a data
      directory's namespace directories: its flushed table is the
      directory scan's table, and its current namespace is empty or the
      name of one of the entries. */
  predicate InStep(skipped: seq<string>, entries: seq<DataEntry>) {
    var st := Scan(skipped + ArchiveNames(entries));
    Flush(st) == DirNamespaces(entries) && Settled(st) && st.current in Names(entries) + {""}
  }

  /** The names after one more entry. */
  lemma NamesSnoc(front: seq<DataEntry>, e: DataEntry)
    ensures Names(front) <= Names(front + [e]) && e.name in Names(front + [e])
  {
    var entries := front + [e];
    forall x | x in Names(front)
      ensures x in Names(entries)
    {
      var i :| 0 <= i < |front| && front[i].name == x;
      assert entries[i].name == x;
    }
    assert entries[|front|].name == e.name;
  }

  /** Appending a clean data entry whose name is new keeps the scans in
      step. */
  lemma AppendEntry(skipped: seq<string>, front: seq<DataEntry>, e: DataEntry)
    requires InStep(skipped, front) && CleanEntry(e) && e.name !in Names(front)
    ensures InStep(skipped, front + [e])
  {
    var entries := front + [e];
    assert entries[..|front|] == front && entries[|front|] == e;
    NamesSnoc(front, e);
    ArchiveSnoc(skipped, front, e);
    if e.NamespaceDir? && |e.files| > 0 {
      AppendRun(skipped, front, e);
    } else if e.NamespaceDir? {
      assert RunOf(e) == [];
      assert skipped + ArchiveNames(front) + RunOf(e) == skipped + ArchiveNames(front);
    } else {
      DataFileIgnored(e.name);
      SkipIgnored(skipped + ArchiveNames(front), RunOf(e));
    }
  }

  /** The scan after a clean namespace directory with files whose name is
      new: the directory's run flushes the state before it and holds the
      tally of its files. */
  lemma AppendRun(skipped: seq<string>, front: seq<DataEntry>, e: DataEntry)
    requires InStep(skipped, front) && CleanEntry(e) && e.name !in Names(front)
    requires e.NamespaceDir? && |e.files| > 0
    ensures Scan(skipped + ArchiveNames(front) + RunOf(e))
            == ScanState(e.name, Tally(e.files), DirNamespaces(front))
  {
    assert e.files[..|e.files|] == e.files;
    BlockFold(skipped + ArchiveNames(front), e.name, e.files, |e.files|);
  }

  /** The scans stay in step over a data directory's entries. */
  lemma {:induction false} ScanPrefix(skipped: seq<string>, entries: seq<DataEntry>)
    requires forall k :: 0 <= k < |skipped| ==> ZipEntry(skipped[k]).None?
    requires forall i :: 0 <= i < |entries| ==> CleanEntry(entries[i])
    requires forall i, j :: 0 <= i < j < |entries| ==> entries[i].name != entries[j].name
    ensures InStep(skipped, entries)
    decreases |entries|
  {
    if |entries| == 0 {
      assert skipped + ArchiveNames(entries) == [] + skipped;
      SkipIgnored([], skipped);
    } else {
      var n := |entries| - 1;
      var front := entries[..n];
      assert front + [entries[n]] == entries;
      forall i | 0 <= i < n
        ensures CleanEntry(front[i])
      {
        assert front[i] == entries[i];
      }
      forall i, j | 0 <= i < j < n
        ensures front[i].name != front[j].name
      {
        assert front[i] == entries[i] && front[j] == entries[j];
      }
      ScanPrefix(skipped, front);
      AppendEntry(skipped, front, entries[n]);
    }
  }

  /** Counting the entry names of a data directory's files, laid out one
      contiguous run per namespace directory, gives the same namespace
      table as counting the directory, when each entry is clean and the
      directory's entries have distinct names; names outside every
      namespace ahead of and behind those runs change nothing. */
  lemma ScansAgree(skipped: seq<string>, entries: seq<DataEntry>, trailing: seq<string>)
    requires forall k :: 0 <= k < |skipped| ==> ZipEntry(skipped[k]).None?
    requires forall k :: 0 <= k < |trailing| ==> ZipEntry(trailing[k]).None?
    requires forall i :: 0 <= i < |entries| ==> CleanEntry(entries[i])
    requires forall i, j :: 0 <= i < j < |entries| ==> entries[i].name != entries[j].name
    ensures ZipNamespaces(skipped + ArchiveNames(entries) + trailing) == DirNamespaces(entries)
  {
    ScanPrefix(skipped, entries);
    SkipIgnored(skipped + ArchiveNames(entries), trailing);
  }

  /** The counts of a single namespace run: when the namespace's files
      form one contiguous run after names that lie in no namespace, and
      their tally has content, the archive scan records that tally. */
  lemma SingleRun(skipped: seq<string>, ns: string, files: seq<string>, trailing: seq<string>)
    requires forall k :: 0 <= k < |skipped| ==> ZipEntry(skipped[k]).None?
    requires forall k :: 0 <= k < |trailing| ==> ZipEntry(trailing[k]).None?
    requires ns != "" && '/' !in ns && '\\' !in ns
    requires forall j :: 0 <= j < |files| ==> CleanFile(ns, files[j])
    requires HasContent(Tally(files))
    ensures ZipNamespaces(skipped + Block(ns, files) + trailing) == map[ns := Tally(files)]
  {
    var entries := [NamespaceDir(ns, files)];
    assert entries[..0] == [];
    assert ArchiveNames(entries) == Block(ns, files);
    ScansAgree(skipped, entries, trailing);
  }
}
