# mcpack in Dafny

mcpack is a command-line tool for Minecraft datapacks. It has five commands:

- `create` lays out a new datapack: pack.mcmeta, an icon, Minecraft tags and starter files.
- `add` adds one element file, such as a function or an advancement, to an existing pack.
- `info` reads a pack's manifest and counts what each namespace holds. It works on a directory or on a zip archive.
- `zip` and `pack` archive a datapack directory.

This project models the rules behind those commands and proves what they promise.

The modules, one per file:

- `Wrappers` (wrappers.dfy): `Option` and `Result`.
- `Text` (text.dfy): the string operations the source relies on, such as `split`, `join`, `ends_with`, `trim_end_matches`, `parse::<u32>` and decimal printing.
- `Json` (json.dfy): a JSON value as a datatype with serde_json's accessors. A file's content is text, a JSON document or raw bytes.
- `PackFormats` (pack_formats.dfy): the format table, range selection, version parsing, the sorted version list, and the collapsing of consecutive versions into spans.
- `Elements` (elements.dfy): the element catalog, the validity test and the starter templates.
- `Info` (info.dfy): the manifest reader of `info`.
- `InfoScan` (info_scan.dfy): the namespace scans of `info`, one over a directory and one over archive entry names, and the two `info` entry points.
- `ScanEquivalence` (scan_equivalence.dfy): the two namespace scans agree on the entry names of a data directory's files, laid out one contiguous run per namespace directory.
- `FileSystem` (filesystem.dfy): the file system as a map from path to node, with `create_dir_all`, `remove_dir_all`, `write` and `copy`.
- `Archive` (archive.dfy): `count_files` and `add_directory_to_zip`, shared by `zip` and `pack`, over a directory tree. The writer and the progress bar are classes.
- `ZipCommand` (zip.dfy) and `PackCommand` (pack.dfy): the two archiving commands.
- `Create` (create.dfy): the checks of `create` and `create_pack`, which updates the file-system map step by step.
- `AddCommand` (add.dfy): the decisions of `add` and the file it writes.

Prompt answers, the current directory and the order in which a directory lists its entries are parameters.

Where the source snapshot disagrees with itself, the model follows each command file's own use of fields and signatures:

- src/cli.rs lacks the `zip` and `add` commands and most `create` fields.
- src/commands/zip.rs:68-69 passes the format text to `get_version_info` and calls `.last()` on its result. The model looks up the known format whose decimal text is that string and takes its last version.
- src/commands/create.rs:192 calls `.join` on the version info. That text is only shown in a prompt.
- The tests call a private `parse_version` and a `get_format_versions` that does not exist. The model follows `get_version_range`.

## Model

| member | source | states |
|---|---|---|
| PackFormats.GetVersionInfo | src/pack_formats.rs:36-38 | a format has versions exactly when it is in PACK_FORMATS, and the list is never empty |
| PackFormats.IsValidFormat | src/pack_formats.rs:40-42 | a format is valid iff get_version_info gives Some iff it is 48, 57 or 61 |
| PackFormats.TableExamples | src/pack_formats.rs:11-42 | 48 maps to ["1.21", "1.21.1"]; 0 has no versions and is not valid |
| PackFormats.GetFormatsString | src/pack_formats.rs:55-61 | the list of known formats reads "48, 57, 61" |
| PackFormats.FilterRange | src/pack_formats.rs:73-79 | the kept formats are exactly those of the input within [min, max], and an ascending input stays ascending |
| PackFormats.GetFormatsInRange | src/pack_formats.rs:73-79 | the result holds exactly the table's formats within [min, max], is strictly ascending, and is empty when min > max |
| PackFormats.FormatsInRangeExample | src/pack_formats.rs:73-79 | the range (48, 61) gives [48, 57, 61] |
| PackFormats.ParseVersion | src/pack_formats.rs:63-70 | the padding loop computes VersionParts |
| PackFormats.VersionPartsMeaning | src/pack_formats.rs:63-70 | there is one component per '.'-piece, set to the piece's u32 value or 0, then zeros up to length 3, so the length is max(pieces, 3) |
| PackFormats.VersionParts121 | src/pack_formats.rs:63-70 | "1.21" parses to [1, 21, 0] |
| PackFormats.VersionParts1211 | src/pack_formats.rs:63-70 | "1.21.1" parses to [1, 21, 1] |
| PackFormats.LexLeTotal | src/pack_formats.rs:89-93 | the order on component lists used by the sort is total |
| PackFormats.LexLeTrans | src/pack_formats.rs:89-93 | the order on component lists used by the sort is transitive |
| PackFormats.SortBy | src/pack_formats.rs:89-93 | the sort returns a permutation of its input, sorted by parsed components |
| PackFormats.InsertSorted | src/pack_formats.rs:89-93 | inserting one version into a sorted list keeps it sorted |
| PackFormats.Dedup | src/pack_formats.rs:94 | dedup keeps the same set of strings and the first element, leaves no two equal adjacent strings, and keeps sortedness |
| PackFormats.DedupRuns | src/pack_formats.rs:94 | only runs of equal neighbours collapse: the result has one element more than the input has changes between neighbours, and each input element sits at the position given by the number of changes up to it |
| PackFormats.CollectVersions | src/pack_formats.rs:83-88 | the collected versions are exactly those of the known formats of the input; unknown formats add nothing |
| PackFormats.GatherVersions | src/pack_formats.rs:83-88 | the loop appends the versions of each known format in input order, giving CollectVersions |
| PackFormats.GetVersionRange | src/pack_formats.rs:82-96 | the result holds exactly the versions of the known input formats, is sorted by parsed components, and has no equal neighbours |
| PackFormats.SortDedupFixed | src/pack_formats.rs:89-94 | a sorted list without equal neighbours is left unchanged by sort and dedup |
| PackFormats.VersionRangeExample | src/pack_formats.rs:82-96 | formats [48, 61] give ["1.21", "1.21.1", "1.21.4"] |
| PackFormats.LastDiff | src/pack_formats.rs:113-117 | the result is the rightmost differing position among the shared components, or None when they all agree |
| PackFormats.ConsecutiveMeaning | src/pack_formats.rs:113-118 | two versions are consecutive iff at the rightmost differing shared position the current component is the previous one plus one, with u32 wrap-around |
| PackFormats.NotSelfConsecutive | src/pack_formats.rs:113-118 | a version is never consecutive to itself |
| PackFormats.RunEnd | src/pack_formats.rs:108-133 | a run extends while neighbours are consecutive and stops at the first break |
| PackFormats.RangesAtBreak | src/pack_formats.rs:120-131 | at a break, the run so far is emitted, untrimmed when it is a single version, and a new run starts |
| PackFormats.FormatVersionRange | src/pack_formats.rs:99-147 | the result is the ", "-join of one rendering per maximal run, and "" for no versions |
| PackFormats.GroupCount | src/pack_formats.rs:99-147 | the number of groups is one more than the number of non-consecutive neighbours |
| PackFormats.KeepsLastDigit | src/pack_formats.rs:126-142 | trimming ".0" leaves a version that does not end in '0' unchanged |
| PackFormats.TableConsecutive | src/pack_formats.rs:113-118 | 1.21 to 1.21.1 and 1.21.1 to 1.21.2 are consecutive; 1.21.2 to 1.21.4 is not |
| PackFormats.FormatVersionRangeExamples | src/pack_formats.rs:99-147 | [1.21, 1.21.1, 1.21.2] gives "1.21-1.21.2"; adding 1.21.4 gives "1.21-1.21.2, 1.21.4"; no versions give "" |
| Text.Split | src/pack_formats.rs:64 | the pieces contain no separator and join back to the input |
| Text.SplitJoin | src/pack_formats.rs:64 | splitting a join of separator-free pieces gives those pieces back |
| Text.TrimEndMatches | src/pack_formats.rs:126-142 | the input is the result followed by some number of copies of the pattern, and the result no longer ends with the pattern |
| Text.DecimalStringParses | src/commands/zip.rs:44-45 | the decimal text of a u32 parses back to it |
| Elements.ElementNamesDistinct | src/elements.rs:2-21 | the table has 18 entries with pairwise distinct names |
| Elements.ElementExtensions | src/elements.rs:2-21 | "function" has ".mcfunction" and every other entry has ".json" |
| Elements.IsValidElementType | src/elements.rs:141-144 | a type is valid iff some table entry has that name |
| Elements.ValidIffNamed | src/elements.rs:2-21 | the valid types are exactly the eighteen listed names |
| Elements.Extension | src/elements.rs:2-21 | a type has an extension iff it is valid; it is ".mcfunction" for "function" and ".json" otherwise |
| Elements.GetSampleContent | src/elements.rs:24-139 | "function" gets empty text; every other name gets a JSON object, non-empty for names with their own arm, the empty object otherwise |
| Elements.FunctionIsValid | src/elements.rs:26 | "function" is valid and its template is empty |
| Elements.InvalidIsRejected | src/elements.rs:141-144 | "invalid" is not a valid type |
| Elements.TagAndAdvancementTemplates | src/elements.rs:27-30 | "tag" gets {"values": ["minecraft:stone"]} and "advancement" gets {"criteria": {}} |
| Elements.WalkVariantHasNoTemplate | src/elements.rs:20 | the listed "walk_variant" is valid but gets the fallback empty object |
| Elements.WolfVariantIsNotListed | src/elements.rs:130-136 | "wolf_variant" has a non-empty template but is not a valid type |
| Elements.TemplatesCoverCatalog | src/elements.rs:24-139 | every valid type other than "walk_variant" is "function" or has its own template |
| Info.AsU8 | src/commands/info.rs:265-269 | `as u8` keeps values below 256 and otherwise keeps the value modulo 256 |
| Info.ZipPath | src/commands/info.rs:64-67 | the path always ends in ".zip", starts with the input, and equals the input iff the input already ends in ".zip" |
| Info.ZipPathIdempotent | src/commands/info.rs:64-67 | adding the suffix twice is the same as adding it once |
| Info.FindPackMcmeta | src/commands/info.rs:97-113 | the loop finds content iff some entry is "pack.mcmeta" or ends in "/pack.mcmeta", and it returns the content of the first such entry |
| Info.ParseTextComponent | src/commands/info.rs:127-145 | a string is itself; an object without a string "text" gives nothing; "text" with a missing or empty color is plain; gray gives dim text |
| Info.ComponentsAppend | src/commands/info.rs:118-121 | rendering an array is rendering its parts in order and concatenating them |
| Info.ComponentsOfStrings | src/commands/info.rs:118-121 | an array of strings renders as those strings, in order |
| Info.ParseDescription | src/commands/info.rs:115-125 | a string is itself, an array is its components, an object is a text component, and anything else is "Invalid description" |
| Info.U8Range | src/commands/info.rs:152-158 | the range holds every u8 from lo to hi in order, and is empty when lo > hi |
| Info.ParseSupportedFormats | src/commands/info.rs:147-168 | absent or another kind gives [pack_format]; an array keeps length and order with each element as u64 or 0, cast to u8; both bounds give lo, lo + 1, ..., hi for the truncated bounds, and nothing when lo > hi; a missing bound gives [pack_format] |
| Info.RangeIncludesUnknownFormats | src/commands/info.rs:152-158 | the range {50, 52} reads as [50, 51, 52], none of them a known format |
| Info.StringEntries | src/commands/info.rs:175-189 | exactly the string entries are kept, in order and with their multiplicity: a string entry preceded by n string entries is the n-th element |
| Info.Features | src/commands/info.rs:170-193 | one pair per string entry of features.enabled, in order, flagged valid iff it is one of the three listed ids |
| Info.ParseFeatures | src/commands/info.rs:170-193 | the loop computes Features |
| Info.Patterns | src/commands/info.rs:200-214 | one pattern per object entry, in order: an object entry preceded by n object entries gives the n-th pattern, with that entry's namespace and path |
| Info.ParseFilter | src/commands/info.rs:195-219 | None iff filter.block is absent or has no object entry; otherwise the patterns of its entries |
| Info.OverlayOf | src/commands/info.rs:226-246 | an overlay is kept iff the entry is an object with non-empty formats and a non-empty directory |
| Info.NumberFormatKept | src/commands/info.rs:229-236 | a single number counts as non-empty formats, so such an overlay is kept iff it has a directory |
| Info.KeptOverlays | src/commands/info.rs:221-251 | exactly the qualifying entries are kept, in order: a qualifying entry preceded by n qualifying entries gives the n-th overlay, built by OverlayOf; every kept overlay has formats and a directory |
| Info.ParseOverlays | src/commands/info.rs:221-251 | the loop keeps exactly the qualifying entries of overlays.entries, in order |
| Info.PackFormatOf | src/commands/info.rs:261-269 | a missing "pack", a missing pack_format and a non-u64 pack_format are three distinct errors; otherwise the value truncated to u8 |
| Info.DescriptionOf | src/commands/info.rs:272-273 | a missing description reads as "" |
| Info.ManifestOf | src/commands/info.rs:258-282 | unparsable content is an error; otherwise the manifest exists iff the pack format reads, and it carries that format, the supported formats read against it, the description, the features, the filter and the kept overlays |
| Info.ReadManifest | src/commands/info.rs:258-282 | the manifest steps that collect_info_from_zip (info.rs:258-282) and collect_info (info.rs:350-374) share, with the features and overlays loops, give exactly the manifest ManifestOf describes |
| InfoScan.HasContentMeaning | src/commands/info.rs:404-414 | a namespace has content iff some counter is non-zero or it has worldgen |
| InfoScan.Bump | src/commands/info.rs:438-453 | a file raises the total by one unless it matches no category; the worldgen flag is untouched |
| InfoScan.BumpCounter | src/commands/info.rs:438-453 | a file raises only its own category's counter |
| InfoScan.DirKindMeaning | src/commands/info.rs:438-453 | a file is a function iff its extension is mcfunction; it is an advancement, recipe, loot table, predicate or tag iff its extension is json and its path starts with that category's directory |
| InfoScan.CollectNamespaceInfo | src/commands/info.rs:416-458 | the walk computes the tally of the namespace's files |
| InfoScan.TallyMeaning | src/commands/info.rs:416-458 | each counter is the number of files of its category, the total is at most the number of files, and worldgen is set iff some file is under "worldgen/" |
| InfoScan.TallyByCounts | src/commands/info.rs:434-453 | for any classification, each counter counts its category, and the total is the files minus the unclassified ones |
| InfoScan.TallyByFlag | src/commands/info.rs:434-436 | the flag is set iff some item sets it |
| InfoScan.ZipEntryMeaning | src/commands/info.rs:292-295 | an entry lies in a namespace iff its name starts with "data/" and has another '/' after it; the namespace is the text up to that '/' |
| InfoScan.ZipEntryOf | src/commands/info.rs:292-310 | a name that is "data/" + ns + "/" + rest, with no '/' in ns, lies in namespace ns and is classified by the last segment of rest |
| InfoScan.Flush | src/commands/info.rs:333-335 | the current namespace is recorded, replacing any earlier record, iff it is named and has content |
| InfoScan.ScanZip | src/commands/info.rs:284-335 | the scan loop computes ZipNamespaces |
| InfoScan.ZipStepContent | src/commands/info.rs:297-302 | a step never records a namespace without content |
| InfoScan.ZipFoldContent | src/commands/info.rs:288-331 | the loop never records a namespace without content |
| InfoScan.ZipFoldKeys | src/commands/info.rs:288-331 | every recorded namespace, and the current one, comes from some entry |
| InfoScan.ZipNamespacesMeaning | src/commands/info.rs:284-335 | every reported namespace has content and comes from an entry of the archive |
| InfoScan.FlushReplaces | src/commands/info.rs:297-302 | when the namespace changes, the run just ended replaces any earlier record of its namespace, so a namespace split across runs keeps only its last run |
| InfoScan.DirNamespacesBy | src/commands/info.rs:379-390 | every recorded namespace has content and is the name of a namespace directory of data |
| InfoScan.LastDirRecorded | src/commands/info.rs:379-390 | a namespace directory with content that no later entry shares a name with is recorded, with the tally of its files |
| InfoScan.CollectNamespaces | src/commands/info.rs:376-390 | no data directory gives no namespaces, a data path that cannot be listed is an error, and a listing gives DirNamespaces |
| InfoScan.ZipStem | src/commands/info.rs:274-278 | an archive's name is its file name without ".zip" |
| InfoScan.InfoFromZip | src/commands/info.rs:61-82 | a missing archive and a missing manifest are errors; otherwise the first manifest entry decides: its manifest error is passed on, or the report carries the archive's stem, its manifest and the namespaces of the zip scan |
| InfoScan.InfoFromDir | src/commands/info.rs:83-90 | no pack.mcmeta is an error, a manifest error is passed on, a data path that cannot be listed is an error, and otherwise the report carries the directory name, the manifest and the directory scan |
| ScanEquivalence.EntryAgrees | src/commands/info.rs:292-328 | the archive scan gives a clean file of a namespace the directory scan's category and worldgen flag |
| ScanEquivalence.BlockFold | src/commands/info.rs:288-331 | a namespace's contiguous run of files flushes the state before it and tallies exactly as the directory scan does |
| ScanEquivalence.ScansAgree | src/commands/info.rs:284-458 | counting the entry names of a data directory's files gives the directory scan's namespace table. The names are laid out as one contiguous run per namespace directory and one "data/<name>" per plain file, between names outside every namespace. Every entry must be clean and free of '\' |
| ScanEquivalence.ZipNameIsEntryName | src/commands/zip.rs:160-168 | for names without '\', "data/" + ns + "/" + rel is the entry name written for the file at data, ns, then rel's components |
| ScanEquivalence.DataFileIsEntryName | src/commands/zip.rs:160-168 | a plain file directly in data gets the entry name "data/<name>" |
| ScanEquivalence.DataFileIgnored | src/commands/info.rs:292-294 | "data/<name>" with no '/' in name lies in no namespace |
| ScanEquivalence.SingleRun | src/commands/info.rs:284-335 | a single contiguous run of a namespace's clean files is recorded with the directory scan's tally when it has content |
| FileSystem.CreateDirAll | src/commands/create.rs:373-374 | fails iff a file lies on the way; otherwise the path is a directory, old entries are kept, and new entries are directories on the way |
| FileSystem.RemoveDirAll | src/commands/create.rs:364-371 | a missing path and a file are errors; a directory and everything below it disappear and nothing else changes |
| FileSystem.Write | src/commands/add.rs:180 | succeeds iff the parent is a directory and the path is not, and then sets exactly that path to the content |
| FileSystem.Copy | src/commands/create.rs:387-389 | a missing or directory source fails; otherwise it writes the source's content to the destination |
| FileSystem.AncestorsPresent | src/commands/create.rs:373-374 | every ancestor of an entry of a valid file system is a directory |
| Create.FirstMatch | src/commands/create.rs:87-95 | None iff no element matches; otherwise the index of the first match |
| Create.CheckFormats | src/commands/create.rs:85-96 | the check passes iff every given format is valid, and the first invalid format is reported |
| Create.MinecraftTags | src/commands/create.rs:107-118 | with --minecraft the list holds "load.mcfunction" iff --load and "tick.mcfunction" iff --tick, load first; without it there is no list |
| Create.PromptedFormats | src/commands/create.rs:186-212 | an empty selection is an error; otherwise the result holds the table's format at each picked index, in pick order, all of them valid |
| Create.CheckFolders | src/commands/create.rs:270-281 | the check passes iff every folder is an element type, and the first bad folder is reported |
| Create.StarterFolders | src/commands/create.rs:264-326 | skipping gives no folders; otherwise the given or picked folders are checked the same way |
| Create.TagsIsNoElementType | src/commands/create.rs:286-293 | the prompt option "tags" is not an element type |
| Create.FolderOptionValidity | src/commands/create.rs:286-293 | every prompt option except "tags" is an element type |
| Create.PromptedTagsAlwaysFail | src/commands/create.rs:295-318 | picking "tags" always fails the check, and reports "tags" |
| Create.SeqMax | src/commands/create.rs:399 | the latest format is the largest of the selection |
| Create.SupportedFormatsOf | src/commands/create.rs:401-425 | a single format omits the field; a range is written iff the selection's set equals the known formats between its min and max and there are at least three; otherwise the selection is written verbatim |
| Create.RangeOnlyForWholeTable | src/commands/create.rs:401-425 | for valid formats a range is written iff 48, 57 and 61 are all selected |
| Create.SupportedJsonOf | src/commands/create.rs:401-425 | supported_formats is present iff more than one format is selected |
| Create.ManifestJson | src/commands/create.rs:427-442 | pack.mcmeta holds the description, the largest format and the supported_formats encoding |
| Create.RangeReadsBack | src/commands/create.rs:401-425 | a written range reads back through info as exactly the formats between its bounds |
| Create.ListReadsBack | src/commands/create.rs:401-425 | a written list reads back through info unchanged |
| Create.SupportedFormatsRoundTrip | src/commands/create.rs:401-433 | reading the written supported_formats back through info and keeping the valid formats gives exactly the selection |
| Create.ManifestRoundTrip | src/commands/create.rs:427-442 | the written pack.mcmeta reads back through info with the largest format, and its valid supported formats are exactly the selection |
| Create.Reset | src/commands/create.rs:364-374 | succeeds iff no file lies on the way; the directory then exists and is empty, and nothing outside it changes |
| Create.TagFileName | src/commands/create.rs:455-458 | a trailing ".mcfunction" becomes ".json"; any other name just gains ".json" |
| Create.StarterFile | src/commands/create.rs:475-505 | only function, advancement, recipe, loot_table and predicate get a starter file: main.mcfunction for function, <folder>.json for the others |
| Create.WriteTags | src/commands/create.rs:448-465 | with an empty data directory every tag file is written with {"values": []} under minecraft/tags/function, and only there |
| Create.WriteTag | src/commands/create.rs:454-464 | one turn writes the empty tag file of the next tag and keeps the tags written so far; it cannot fail while data is empty |
| Create.WriteNamespace | src/commands/create.rs:467-509 | when data has room, every folder is created and gets its starter file with the folder's template, and nothing outside the namespace changes |
| Create.WriteFolder | src/commands/create.rs:474-508 | one turn creates the next folder and its starter file, if any, within the namespace frame; it cannot fail while data has room |
| Create.TagsSurviveNamespace | src/commands/create.rs:448-509 | writing the namespace keeps the tag files already written |
| Create.IconError | src/commands/create.rs:377-397 | no icon, or an existing file ending in png in any case, passes; a missing icon and another extension are distinct errors |
| Create.IconInsidePackIsLost | src/commands/create.rs:364-397 | an icon inside the pack directory is removed before it is checked, so create reports it missing |
| Create.CopyIcon | src/commands/create.rs:377-397 | the result is the icon error, or the icon copied to pack.png |
| Create.PackLayout | src/commands/create.rs:399-509 | after the writes, the pack holds exactly pack.mcmeta, the icon, the data directory, the tag files and the namespace files, and nothing outside the pack changed |
| Create.WritePack | src/commands/create.rs:427-509 | after the icon step, writing pack.mcmeta, data, the tags and the namespace gives the full layout; the tags and namespace steps do not fail |
| Create.CreatePack | src/commands/create.rs:341-526 | a decline leaves everything unchanged; a file on the way is an I/O error; an icon error leaves an empty pack directory; otherwise the pack has the full layout |
| AddCommand.Select | src/commands/add.rs:25-29 | a pick succeeds iff it is in range, and yields that option |
| AddCommand.ChosenElement | src/commands/add.rs:20-30 | a given element is used as is; otherwise the pick succeeds iff it is in range, and yields the catalog name at that index, which is valid |
| AddCommand.WithoutMinecraft | src/commands/add.rs:89-91 | retain drops exactly the "minecraft" entries and keeps every other entry with its count |
| AddCommand.ResolveNamespace | src/commands/add.rs:67-144 | a given namespace is used; free text is asked iff there are no flags and no namespaces; without flags several namespaces are offered with "minecraft" appended; with flags several candidates are offered without "minecraft", and none offers the whole listing; an automatic choice comes from the listing and is not "minecraft" with flags |
| AddCommand.SoleCandidateIsTaken | src/commands/add.rs:122-124 | exactly one candidate is taken without a prompt |
| AddCommand.FlaggedFallbackOffersOnlyMinecraft | src/commands/add.rs:93-115 | with flags and no other namespace, the whole listing is offered, and it can only hold "minecraft" |
| AddCommand.FlaggedChoiceExcludesMinecraft | src/commands/add.rs:126-132 | with flags and several candidates, "minecraft" is not offered |
| AddCommand.MinecraftOfferedTwice | src/commands/add.rs:134-141 | without flags, several namespaces including "minecraft" offer it twice |
| AddCommand.NamespaceListing | src/commands/add.rs:71-86 | a missing data directory gives no namespaces, a file there is an error, and a directory gives its listing |
| AddCommand.AddPlan | src/commands/add.rs:20-144 | an invalid given element is reported with the valid names; a plan always has a valid element and a root with pack.mcmeta; given arguments are used as given; a root without pack.mcmeta is an error |
| AddCommand.FlaggedNamespaceExists | src/commands/add.rs:43-144 | with flags and no namespace argument, the chosen namespace is an existing directory under data |
| AddCommand.TargetFile | src/commands/add.rs:146-153 | the target is root/data/<namespace>/<element type>/<name><extension>, with ".mcfunction" for functions and ".json" otherwise |
| AddCommand.FunctionTarget | src/commands/add.rs:146-153 | a function "main" in "demo" goes to data/demo/function/main.mcfunction |
| AddCommand.Run | src/commands/add.rs:8-180 | plan errors change nothing; the parent directories are created first; an existing file without --force is asked about, and a declined or failed prompt leaves the file as it was; otherwise the file holds the element's template |
| AddCommand.Apply | src/commands/add.rs:155-180 | the parent directories are created first; an existing file without --force is asked about, and a declined or failed prompt leaves it; otherwise the file holds the element's template |
| Archive.ReplaceChar | src/commands/zip.rs:168 | every '\' becomes '/' and nothing else changes |
| Archive.CountFiles | src/commands/zip.rs:139-151 | the recursion counts the non-directory entries of the tree |
| Archive.AddDirectoryToZip | src/commands/zip.rs:153-178 | the writer gains the walk's entries, in order, and the progress rises by the number of files |
| Archive.ZipWriter.AddFile | src/commands/zip.rs:168-172 | one entry with that name and content is appended |
| Archive.ProgressBar.Inc | src/commands/zip.rs:173 | the position rises by one |
| Archive.WalkCount | src/commands/zip.rs:153-178 | the walk writes one entry per file of the tree |
| Archive.WalkNames | src/commands/zip.rs:168 | no entry name holds a '\' |
| Archive.WalkHasFile | src/commands/zip.rs:160-174 | every file directly in the directory is written under its relative name, with its content |
| Archive.WalkHasDir | src/commands/zip.rs:160-166 | the recursive call for a subdirectory writes its entries into the same archive walk |
| Archive.ArchivedHasFile | src/commands/zip.rs:153-178 | every file at any depth, reached by a path of child indices, is written under the '/'-joined path relative to the archived directory, with its content |
| Archive.ReadMcmeta | src/commands/zip.rs:30-40 | a missing directory or pack.mcmeta is "not a datapack"; a directory named pack.mcmeta is a read error; content that does not parse is an error; otherwise the parsed content |
| Archive.DefaultArchiveName | src/commands/zip.rs:65-71 | the name is "<dir>_<last version>.zip" for a known format and "<dir>.zip" otherwise |
| Archive.WriteArchive | src/commands/zip.rs:105-127 | creation fails iff the output directory is missing or the name is a directory; otherwise the archive holds the walk of the tree as it is after the file is created, with the progress length counted before |
| Archive.ArchiveMeetsItself | src/commands/zip.rs:106-124 | an archive written inside the datapack directory holds an entry for itself (its bytes not modelled), and the walk counts one more file than the bar's length |
| Archive.ProgressMatchesCount | src/commands/zip.rs:106-124 | with the output outside the datapack, the progress ends at count_files and the archive has that many entries |
| ZipCommand.SourceDir | src/commands/zip.rs:21-28 | both a path and an input directory is an error; otherwise the given one, or the current directory |
| ZipCommand.FormatText | src/commands/zip.rs:42-48 | pack_format is read as a string, else as u64 digits, else it is an error |
| ZipCommand.FindFormat | src/commands/zip.rs:68 | the result is a format whose decimal text is the given text, or None when there is none |
| ZipCommand.ZipName | src/commands/zip.rs:56-72 | a custom name must end in ".zip"; otherwise the default name; the result always ends in ".zip" |
| ZipCommand.OutputDir | src/commands/zip.rs:75-81 | the explicit directory, else the current directory when a path was given, else the datapack |
| ZipCommand.Run | src/commands/zip.rs:12-137 | each error is reported in order; an existing archive without --force is asked about and a decline writes nothing; otherwise a failed create is an error, and else the archive holds the walk of the directory |
| ZipCommand.DefaultNameOfKnownFormat | src/commands/zip.rs:65-71 | format "48" names the archive "<dir>_1.21.1.zip" |
| ZipCommand.DefaultNameOfUnknownFormat | src/commands/zip.rs:65-71 | an unknown format names the archive "<dir>.zip" |
| PackCommand.PackFormat | src/commands/pack.rs:31-35 | pack_format must be a u64, strings included as errors, and is truncated to u8 |
| PackCommand.TextFormatRefused | src/commands/pack.rs:31-35 | a pack_format written as a string is refused as missing, unlike zip, which accepts it |
| PackCommand.FormatWrapsAround | src/commands/pack.rs:31-58 | format 304 reads as 48, so the archive is named after 1.21.1 |
| PackCommand.OutputDir | src/commands/pack.rs:44-50 | the current directory when a path was given, else the datapack |
| PackCommand.Run | src/commands/pack.rs:12-112 | errors are reported in order; an existing archive is always asked about, and a decline writes nothing; otherwise a failed create is an error, and else the archive, with the default name, holds the walk of the directory |

## Left out

- get_valid_formats_string (src/pack_formats.rs:44-53) is never called and is not modelled.
- Terminal output is not modelled: colours, messages and display_info. A coloured text component is a `Styled` span.
- Prompts are parameters. A failed selection or text prompt is `None` or an out-of-range pick. The name, description, icon, namespace and format prompts of collect_settings are not modelled beyond the format selection and the starter folders. dialoguer's defaults are not modelled.
- collect_settings always has a custom namespace before it looks at starter folders (src/commands/create.rs:250-262), so `StarterFolders` takes that branch unconditionally.
- serde_json parsing and pretty-printing are not modelled. A JSON file is a `Pretty` document that parses to itself, and text or bytes do not parse. Key order and whitespace are lost.
- A path is a sequence of components. Windows separators, symlinks and permissions are not modelled. A name containing '/' is one component.
- Directory listing order is a parameter: the children order of a tree, or the `listing` of `add`.
- Create.CreatePack: the overwrite confirmation is a `bool`, so a confirmation prompt that fails, which is an error in the source, is not modelled.
- ZipCommand.Run: the same holds for its overwrite confirmation.
- PackCommand.Run: the same holds for its overwrite confirmation.
- Read and I/O failures other than the modelled missing, not-a-directory and is-a-directory cases are not modelled, and neither are partial writes or rollback.
- Deflate compression and the zip format are not modelled. An archive is its sequence of entries, and the entries are returned, not written to the tree.
- The u64 of count_files cannot overflow in the model, and duplicate entry names are not checked.
- zip and pack do not check `File::open` failures of files that vanish during the walk.
- pack.rs is not dispatched by src/main.rs. It is modelled as written.
- A component-wise u32 parse panic cannot happen: a piece that is not a u32 becomes 0, as in the source.
- PackFormats.IsConsecutive: `c - p` on u32 panics in debug builds when c < p. The model uses release-build wrap-around, so 4294967295 followed by 0 counts as consecutive.
- Text.AsciiLower: `to_lowercase` is modelled on ASCII letters only.
- ScanEquivalence.ScansAgree: the two scans are shown to agree on entry-name sequences of one shape: names outside every namespace, then one contiguous run per entry of the data directory, then names outside every namespace. `InfoScan.FlushReplaces` shows where they part otherwise: a namespace split across runs keeps only its last run.
- ScanEquivalence.ScansAgree: that `Archive.Archived` of a whole datapack tree has this shape is not proved. The names are tied one by one (`ZipNameIsEntryName`, `DataFileIsEntryName`), but a directory listing of relative file paths is not derived from a `Tree`.
- ScanEquivalence.ScansAgree: names holding a '\' are excluded. The archive turns each '\' into '/', so a file named `advancement\x.json` at a namespace's root counts as an advancement in the archive but not in the directory.
- Create.WriteTags: an I/O error is not tied to its cause. The contract only says that no error occurs when the data directory is empty, which `create_pack` guarantees.
- Create.WriteNamespace: the same holds for namespace writes. No error occurs when data holds nothing but the tag tree.
- Create.CopyIcon: `fs::copy` of a directory source is reported as `Io(IsADirectory)`. The error kind std returns on each platform is not modelled.
- Create.CreatePack: requires at least one format. create_pack (src/commands/create.rs:399) panics in `.max().unwrap()` on an empty list, after the reset and the icon copy. The prompt path refuses an empty selection (create.rs:206). An empty explicit list is assumed not to reach create_pack: the argument parser is not part of this model, so that panic is not modelled.
- Create.CreatePack: an I/O error from a file on the way to the pack directory is reported as `Io`, but its exact kind is not stated.
