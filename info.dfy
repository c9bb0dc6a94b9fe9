/** The manifest side of the `info` command (src/commands/info.rs): locating
    pack.mcmeta in an archive, the checks on its "pack" object, and the total
    interpretation functions for the description, supported formats,
    features, filter and overlays. Terminal styling is kept as an opaque
    style tag on each rendered piece of text. */
module Info {
  import opened Wrappers
  import opened Text
  import opened Json
  import opened PackFormats

  /** `x as u8` for an unsigned 64-bit value: the low eight bits. */
  function AsU8(n: nat): (b: u8)
    ensures n < 256 ==> b == n
    ensures (n - b) % 256 == 0
  {
    n % 256
  }

  // ---------------------------------------------------------------------
  // Locating the manifest

  /** The archive path of `info <path>`: ".zip" is appended unless the path
      already ends with it. */
  function ZipPath(path: string): (full: string)
    ensures EndsWith(full, ".zip")
    ensures StartsWith(full, path)
    ensures EndsWith(path, ".zip") <==> full == path
    ensures |full| <= |path| + 4
  {
    if EndsWith(path, ".zip") then path else path + ".zip"
  }

  /** Completing a path twice is the same as completing it once. */
  lemma ZipPathIdempotent(path: string)
    ensures ZipPath(ZipPath(path)) == ZipPath(path)
  {
  }

  /** An archive entry: its name and what reading it yields. */
  datatype Entry = Entry(name: string, data: Content)

  /** The name of a manifest inside an archive, at any depth. */
  predicate IsManifestName(name: string) {
    name == "pack.mcmeta" || EndsWith(name, "/pack.mcmeta")
  }

  /** Entry i is the first, in index order, with a manifest name. */
  predicate FirstManifestAt(entries: seq<Entry>, i: int) {
    0 <= i < |entries| && IsManifestName(entries[i].name)
    && forall j :: 0 <= j < i ==> !IsManifestName(entries[j].name)
  }

  /** find_pack_mcmeta_in_zip: the content of the first entry, in index
      order, whose name is a manifest name; an error when there is none. */
  method FindPackMcmeta(entries: seq<Entry>) returns (r: Option<Content>)
    ensures r.Some? <==> exists i :: 0 <= i < |entries| && IsManifestName(entries[i].name)
    ensures forall i :: FirstManifestAt(entries, i) ==> r == Some(entries[i].data)
  {
    r := None;
    var i := 0;
    while i < |entries|
      invariant 0 <= i <= |entries|
      invariant forall j :: 0 <= j < i ==> !IsManifestName(entries[j].name)
    {
      if IsManifestName(entries[i].name) {
        r := Some(entries[i].data);
        return;
      }
      i := i + 1;
    }
  }

  // ---------------------------------------------------------------------
  // Description

  /** The two styles the tool prints text components in: dimmed, or in
      colour 24 of the 256-colour palette. */
  datatype Style = Dim | Color24

  /** A piece of rendered description text. */
  datatype Span = Plain(text: string) | Styled(text: string, style: Style)

  /** `v.get(key).and_then(|x| x.as_str())`. */
  function StrField(v: Json, key: string): (r: Option<string>)
    ensures r.Some? <==> v.Obj? && key in v.fields && v.fields[key].Str?
    ensures r.Some? ==> r.value == v.fields[key].s
  {
    match Get(v, key)
    case Some(x) => AsStr(x)
    case None => None
  }

  /** parse_text_component: a string renders as itself; an object with a
      string "text" renders that text, unstyled when "color" is missing or
      empty, dimmed for "gray", and in colour 24 for any other colour
      (including "#rrggbb" codes); everything else renders as nothing. */
  function ParseTextComponent(c: Json): (r: seq<Span>)
    ensures |r| <= 1
    ensures r == [] <==> !c.Str? && StrField(c, "text").None?
    ensures c.Str? ==> r == [Plain(c.s)]
    ensures c.Obj? && StrField(c, "text").Some? && StrField(c, "color").GetOr("") == ""
      ==> r == [Plain(StrField(c, "text").value)]
    ensures |r| == 1 && c.Obj? ==> r[0].text == StrField(c, "text").value
    ensures |r| == 1 && c.Obj? ==>
      (r[0] == Styled(r[0].text, Dim) <==> StrField(c, "color") == Some("gray"))
  {
    match c
    case Str(s) => [Plain(s)]
    case Obj(_) =>
      var text := StrField(c, "text");
      if text.None? then []
      else
        var color := StrField(c, "color").GetOr("");
        if color == "" then [Plain(text.value)]
        else if StartsWith(color, "#") then
          assert color[0] != "gray"[0];
          [Styled(text.value, Color24)]
        else if color == "gray" then [Styled(text.value, Dim)]
        else [Styled(text.value, Color24)]
    case _ => []
  }

  /** The components of a description array rendered one after the other. */
  function Components(items: seq<Json>): (r: seq<Span>)
    ensures |r| <= |items|
    decreases |items|
  {
    if |items| == 0 then []
    else Components(items[..|items| - 1]) + ParseTextComponent(items[|items| - 1])
  }

  /** Rendering a split array renders the two halves one after the other. */
  lemma {:induction false} ComponentsAppend(a: seq<Json>, b: seq<Json>)
    ensures Components(a + b) == Components(a) + Components(b)
    decreases |b|
  {
    if |b| == 0 {
      assert a + b == a;
    } else {
      var b' := b[..|b| - 1];
      assert (a + b)[..|a + b| - 1] == a + b';
      ComponentsAppend(a, b');
    }
  }

  /** An array of plain strings renders as those strings, unstyled and in
      order. */
  lemma {:induction false} ComponentsOfStrings(items: seq<Json>)
    requires forall k :: 0 <= k < |items| ==> items[k].Str?
    ensures |Components(items)| == |items|
    ensures forall k :: 0 <= k < |items| ==> Components(items)[k] == Plain(items[k].s)
    decreases |items|
  {
    if |items| > 0 {
      ComponentsOfStrings(items[..|items| - 1]);
    }
  }

  /** parse_description: a string is itself, an array is the in-order
      rendering of its components, an object is one component, and anything
      else is the text "Invalid description". */
  function ParseDescription(desc: Json): (r: seq<Span>)
    ensures desc.Str? ==> r == [Plain(desc.s)]
    ensures desc.Arr? ==> r == Components(desc.items)
    ensures desc.Obj? ==> r == ParseTextComponent(desc)
    ensures !(desc.Str? || desc.Arr? || desc.Obj?) ==> r == [Plain("Invalid description")]
  {
    match desc
    case Str(s) => [Plain(s)]
    case Arr(items) => Components(items)
    case Obj(_) => ParseTextComponent(desc)
    case _ => [Plain("Invalid description")]
  }

  // ---------------------------------------------------------------------
  // Supported formats

  /** `(lo..=hi).collect()` over u8: every value from lo to hi, empty when
      lo > hi. */
  function U8Range(lo: u8, hi: u8): (r: seq<u8>)
    ensures |r| == if lo <= hi then hi - lo + 1 else 0
    ensures forall k :: 0 <= k < |r| ==> r[k] == lo + k
    ensures forall f: u8 :: f in r <==> lo <= f <= hi
    decreases hi - lo
  {
    if lo > hi then []
    else
      var r := if lo == hi then [lo] else [lo] + U8Range(lo + 1, hi);
      forall f: u8 | lo <= f <= hi
        ensures f in r
      {
        assert r[f - lo] == f;
      }
      r
  }

  /** `v.as_u64().unwrap_or(0) as u8`. */
  function FormatOrZero(v: Json): u8 {
    AsU8(AsU64(v).GetOr(0))
  }

  /** `obj.get(key).and_then(|v| v.as_u64())`. */
  function U64Field(v: Json, key: string): (r: Option<nat>)
    ensures r.Some? ==> v.Obj? && key in v.fields && AsU64(v.fields[key]) == r
  {
    match Get(v, key)
    case Some(x) => AsU64(x)
    case None => None
  }

  /** parse_supported_formats. */
  function ParseSupportedFormats(packFormat: u8, formats: Option<Json>): (r: seq<u8>)
    // absent, or neither an array nor an object: the pack format alone
    ensures formats.None? || !(formats.value.Arr? || formats.value.Obj?) ==> r == [packFormat]
    // an array: same length and order, each element as u64 or 0, cast to u8
    ensures formats.Some? && formats.value.Arr? ==>
      |r| == |formats.value.items|
      && forall k :: 0 <= k < |r| ==> r[k] == FormatOrZero(formats.value.items[k])
    // an object with both bounds: every u8 between the truncated bounds
    ensures (formats.Some? && formats.value.Obj?
             && U64Field(formats.value, "min_inclusive").Some?
             && U64Field(formats.value, "max_inclusive").Some?) ==>
      var lo := AsU8(U64Field(formats.value, "min_inclusive").value);
      var hi := AsU8(U64Field(formats.value, "max_inclusive").value);
      && |r| == (if lo <= hi then hi - lo + 1 else 0)
      && (forall k :: 0 <= k < |r| ==> r[k] == lo + k)
      && (forall f: u8 :: f in r <==> lo <= f <= hi)
    // an object missing a bound: the pack format alone
    ensures (formats.Some? && formats.value.Obj?
             && (U64Field(formats.value, "min_inclusive").None?
                 || U64Field(formats.value, "max_inclusive").None?)) ==> r == [packFormat]
  {
    match formats
    case None => [packFormat]
    case Some(Arr(items)) => seq(|items|, k requires 0 <= k < |items| => FormatOrZero(items[k]))
    case Some(Obj(_)) =>
      var min := U64Field(formats.value, "min_inclusive");
      var max := U64Field(formats.value, "max_inclusive");
      if min.Some? && max.Some? then U8Range(AsU8(min.value), AsU8(max.value)) else [packFormat]
    case Some(_) => [packFormat]
  }

  /** A range object may list formats the table does not know: {"min_inclusive":
      50, "max_inclusive": 52} reads as [50, 51, 52]. */
  lemma RangeIncludesUnknownFormats(formats: Json)
    requires formats == Obj(map["min_inclusive" := Num(Int(50)), "max_inclusive" := Num(Int(52))])
    ensures ParseSupportedFormats(48, Some(formats)) == [50, 51, 52]
    ensures !IsValidFormat(50) && !IsValidFormat(51) && !IsValidFormat(52)
  {
    assert U64Field(formats, "min_inclusive") == Some(50);
    assert U64Field(formats, "max_inclusive") == Some(52);
  }

  // ---------------------------------------------------------------------
  // Features

  /** The feature flags the tool recognises. */
  const ValidFeatures: seq<string> := [
    "minecraft:redstone_experiments",
    "minecraft:minecart_improvements",
    "minecraft:trade_rebalance"
  ]

  /** `mcmeta.get(a).and_then(|x| x.get(b)).and_then(|y| y.as_array())`. */
  function NestedArray(mcmeta: Json, a: string, b: string): Option<seq<Json>> {
    match GetOpt(Get(mcmeta, a), b)
    case Some(x) => AsArray(x)
    case None => None
  }

  /** The number of string entries of a JSON array. */
  function StringCount(items: seq<Json>): (n: nat)
    ensures n <= |items|
    decreases |items|
  {
    if |items| == 0 then 0
    else StringCount(items[..|items| - 1]) + (if items[|items| - 1].Str? then 1 else 0)
  }

  /** The string entries of a JSON array, in order: one per string entry,
      the entry at index k landing after the string entries before it. */
  function StringEntries(items: seq<Json>): (r: seq<string>)
    ensures |r| == StringCount(items)
    ensures forall k :: 0 <= k < |items| && items[k].Str? ==>
      StringCount(items[..k]) < |r| && r[StringCount(items[..k])] == items[k].s
    ensures forall s :: s in r <==> Str(s) in items
    decreases |items|
  {
    if |items| == 0 then []
    else
      var n := |items| - 1;
      var last := items[n];
      assert items == items[..n] + [last];
      var r := StringEntries(items[..n]) + (if last.Str? then [last.s] else []);
      forall k | 0 <= k < |items| && items[k].Str?
        ensures StringCount(items[..k]) < |r| && r[StringCount(items[..k])] == items[k].s
      {
        if k < n {
          assert items[..n][k] == items[k] && items[..n][..k] == items[..k];
        }
      }
      r
  }

  /** One more item adds its string, if it is one. */
  lemma StringEntriesStep(items: seq<Json>, i: nat)
    requires i < |items|
    ensures StringEntries(items[..i + 1]) == StringEntries(items[..i]) + (if items[i].Str? then [items[i].s] else [])
  {
    assert items[..i + 1][..i] == items[..i];
  }

  /** The features parse_features reports: the string entries of
      features.enabled, each flagged with whether it is a recognised feature. */
  function Features(mcmeta: Json): (r: seq<(string, bool)>)
    ensures NestedArray(mcmeta, "features", "enabled").None? ==> r == []
    ensures NestedArray(mcmeta, "features", "enabled").Some? ==>
      var names := StringEntries(NestedArray(mcmeta, "features", "enabled").value);
      |r| == |names| && forall k :: 0 <= k < |r| ==> r[k] == (names[k], names[k] in ValidFeatures)
  {
    match NestedArray(mcmeta, "features", "enabled")
    case None => []
    case Some(items) => Flagged(StringEntries(items))
  }

  /** Each feature name paired with whether it is recognised. */
  function Flagged(names: seq<string>): seq<(string, bool)> {
    seq(|names|, k requires 0 <= k < |names| => (names[k], names[k] in ValidFeatures))
  }

  lemma FlaggedSnoc(names: seq<string>, x: string)
    ensures Flagged(names + [x]) == Flagged(names) + [(x, x in ValidFeatures)]
  {
  }

  /** parse_features: one pass over features.enabled, pushing each string
      entry with its validity flag. */
  method ParseFeatures(mcmeta: Json) returns (features: seq<(string, bool)>)
    ensures features == Features(mcmeta)
  {
    features := [];
    var arr := NestedArray(mcmeta, "features", "enabled");
    if arr.Some? {
      features := FlagStrings(arr.value);
    }
  }

  /** The loop of parse_features over the entries of features.enabled. */
  method FlagStrings(items: seq<Json>) returns (features: seq<(string, bool)>)
    ensures features == Flagged(StringEntries(items))
  {
    features := [];
    for i := 0 to |items|
      invariant features == Flagged(StringEntries(items[..i]))
    {
      StringEntriesStep(items, i);
      if items[i].Str? {
        FlaggedSnoc(StringEntries(items[..i]), items[i].s);
        features := features + [(items[i].s, items[i].s in ValidFeatures)];
      }
    }
    assert items[..|items|] == items;
  }

  // ---------------------------------------------------------------------
  // Filter

  /** One pattern of filter.block. */
  datatype BlockPattern = BlockPattern(namespace: Option<string>, path: Option<string>)

  /** The number of object entries of a JSON array. */
  function ObjectCount(items: seq<Json>): (n: nat)
    ensures n <= |items|
    decreases |items|
  {
    if |items| == 0 then 0
    else ObjectCount(items[..|items| - 1]) + (if items[|items| - 1].Obj? then 1 else 0)
  }

  /** The pattern an object entry of filter.block describes. */
  function PatternOf(entry: Json): BlockPattern {
    BlockPattern(StrField(entry, "namespace"), StrField(entry, "path"))
  }

  /** The patterns of the object entries of filter.block, in order: one
      per object entry, with that entry's namespace and path, the entry at
      index k landing after the patterns of the object entries before it. */
  function Patterns(items: seq<Json>): (r: seq<BlockPattern>)
    ensures |r| == ObjectCount(items)
    ensures forall k :: 0 <= k < |items| && items[k].Obj? ==>
      ObjectCount(items[..k]) < |r| && r[ObjectCount(items[..k])] == PatternOf(items[k])
    ensures r == [] <==> forall k :: 0 <= k < |items| ==> !items[k].Obj?
    decreases |items|
  {
    if |items| == 0 then []
    else
      var n := |items| - 1;
      var last := items[n];
      var front := Patterns(items[..n]);
      assert forall k :: 0 <= k < n ==> items[..n][k] == items[k];
      var r := front + (if last.Obj? then [PatternOf(last)] else []);
      forall k | 0 <= k < |items| && items[k].Obj?
        ensures ObjectCount(items[..k]) < |r| && r[ObjectCount(items[..k])] == PatternOf(items[k])
      {
        if k < n {
          assert items[..n][k] == items[k] && items[..n][..k] == items[..k];
        }
      }
      r
  }

  /** parse_filter: the block patterns, or None when filter.block is missing,
      is not an array, or has no object entries. */
  function ParseFilter(mcmeta: Json): (r: Option<seq<BlockPattern>>)
    ensures r.Some? <==> (NestedArray(mcmeta, "filter", "block").Some?
                          && exists k :: 0 <= k < |NestedArray(mcmeta, "filter", "block").value|
                                         && NestedArray(mcmeta, "filter", "block").value[k].Obj?)
    ensures r.Some? ==> (|r.value| > 0
                         && r.value == Patterns(NestedArray(mcmeta, "filter", "block").value))
  {
    match NestedArray(mcmeta, "filter", "block")
    case None => None
    case Some(items) =>
      var patterns := Patterns(items);
      if patterns == [] then None else Some(patterns)
  }

  // ---------------------------------------------------------------------
  // Overlays

  datatype Overlay = Overlay(formats: seq<u8>, directory: string)

  /** The u64 entries of an array, each cast to u8, in order. */
  function U64Entries(items: seq<Json>): (r: seq<u8>)
    ensures |r| <= |items|
    ensures r == [] <==> forall k :: 0 <= k < |items| ==> AsU64(items[k]).None?
    decreases |items|
  {
    if |items| == 0 then []
    else
      var last := items[|items| - 1];
      assert forall k :: 0 <= k < |items| - 1 ==> items[..|items| - 1][k] == items[k];
      U64Entries(items[..|items| - 1])
        + (if AsU64(last).Some? then [AsU8(AsU64(last).value)] else [])
  }

  /** The formats of an overlay entry: its u64 entries when "formats" is an
      array, one format (0 when not a u64) when it is a number, none
      otherwise. */
  function OverlayFormats(entry: Json): (r: seq<u8>)
    ensures Get(entry, "formats").Some? && Get(entry, "formats").value.Num? ==> |r| == 1
    ensures (Get(entry, "formats").None?
             || !(Get(entry, "formats").value.Num? || Get(entry, "formats").value.Arr?)) ==> r == []
  {
    match Get(entry, "formats")
    case Some(Arr(items)) => U64Entries(items)
    case Some(Num(n)) => [AsU8(AsU64(Num(n)).GetOr(0))]
    case _ => []
  }

  /** The overlay an entry describes, when it has formats and a directory. */
  function OverlayOf(entry: Json): (r: Option<Overlay>)
    ensures r.Some? <==> (entry.Obj? && |OverlayFormats(entry)| > 0
                          && StrField(entry, "directory").GetOr("") != "")
    ensures r.Some? ==> (r.value.formats == OverlayFormats(entry)
                         && r.value.directory == StrField(entry, "directory").value)
  {
    if !entry.Obj? then None
    else
      var formats := OverlayFormats(entry);
      var directory := StrField(entry, "directory").GetOr("");
      if |formats| > 0 && |directory| > 0 then Some(Overlay(formats, directory)) else None
  }

  /** An overlay that names formats and a directory. */
  predicate HasFormatsAndDirectory(o: Overlay) {
    |o.formats| > 0 && |o.directory| > 0
  }

  /** The number of entries of a list that `f` gives an overlay for. */
  function SomeCount(items: seq<Json>, f: Json -> Option<Overlay>): (n: nat)
    ensures n <= |items|
    decreases |items|
  {
    if |items| == 0 then 0
    else SomeCount(items[..|items| - 1], f) + (if f(items[|items| - 1]).Some? then 1 else 0)
  }

  /** The overlays `f` gives for the entries of a list, in order,
      skipping the entries it gives none for: the entry at index k, when it
      has one, lands after the overlays of the entries before it. The
      reading of an entry is a parameter, so that these facts are proved
      without unfolding it. */
  function Somes(items: seq<Json>, f: Json -> Option<Overlay>): (r: seq<Overlay>)
    ensures |r| == SomeCount(items, f)
    ensures forall k :: 0 <= k < |items| && f(items[k]).Some? ==>
      SomeCount(items[..k], f) < |r| && r[SomeCount(items[..k], f)] == f(items[k]).value
    ensures (forall e :: f(e).Some? ==> HasFormatsAndDirectory(f(e).value)) ==>
      forall j :: 0 <= j < |r| ==> HasFormatsAndDirectory(r[j])
    decreases |items|
  {
    if |items| == 0 then []
    else
      var n := |items| - 1;
      var front := Somes(items[..n], f);
      var r := front + (if f(items[n]).Some? then [f(items[n]).value] else []);
      forall k | 0 <= k < |items| && f(items[k]).Some?
        ensures SomeCount(items[..k], f) < |r| && r[SomeCount(items[..k], f)] == f(items[k]).value
      {
        if k < n {
          assert items[..n][k] == items[k] && items[..n][..k] == items[..k];
        }
      }
      r
  }

  /** One more item adds its value, if it has one. */
  lemma SomesStep(items: seq<Json>, f: Json -> Option<Overlay>, i: nat)
    requires i < |items|
    ensures Somes(items[..i + 1], f)
            == Somes(items[..i], f) + (if f(items[i]).Some? then [f(items[i]).value] else [])
  {
    assert items[..i + 1][..i] == items[..i];
  }

  /** The overlays kept from a list of entries, in order: one per entry
      that describes an overlay, with that entry's formats and directory,
      the entry at index k landing after the overlays of the entries
      before it. */
  function KeptOverlays(entries: seq<Json>): (r: seq<Overlay>)
    ensures |r| == SomeCount(entries, OverlayOf)
    ensures forall k :: 0 <= k < |entries| && OverlayOf(entries[k]).Some? ==>
      SomeCount(entries[..k], OverlayOf) < |r|
      && r[SomeCount(entries[..k], OverlayOf)] == OverlayOf(entries[k]).value
    ensures forall k :: 0 <= k < |r| ==> HasFormatsAndDirectory(r[k])
  {
    Somes(entries, OverlayOf)
  }

  /** An entry whose formats is a single number is kept exactly when it
      names a non-empty directory, even when the number is not a u64. */
  lemma NumberFormatKept(entry: Json)
    requires entry.Obj? && "formats" in entry.fields && entry.fields["formats"].Num?
    ensures OverlayOf(entry).Some? <==> StrField(entry, "directory").GetOr("") != ""
  {
  }

  /** parse_overlays: one pass over overlays.entries, pushing every entry
      that has formats and a directory. */
  method ParseOverlays(mcmeta: Json) returns (overlays: seq<Overlay>)
    ensures NestedArray(mcmeta, "overlays", "entries").None? ==> overlays == []
    ensures NestedArray(mcmeta, "overlays", "entries").Some? ==>
      overlays == KeptOverlays(NestedArray(mcmeta, "overlays", "entries").value)
  {
    overlays := [];
    var arr := NestedArray(mcmeta, "overlays", "entries");
    if arr.Some? {
      overlays := KeepOverlays(arr.value);
    }
  }

  /** The loop of parse_overlays over overlays.entries. */
  method KeepOverlays(entries: seq<Json>) returns (overlays: seq<Overlay>)
    ensures overlays == KeptOverlays(entries)
  {
    overlays := [];
    for i := 0 to |entries|
      invariant overlays == KeptOverlays(entries[..i])
    {
      SomesStep(entries, OverlayOf, i);
      var entry := entries[i];
      if entry.Obj? {
        var formats := OverlayFormats(entry);
        var directory := StrField(entry, "directory").GetOr("");
        if |formats| > 0 && |directory| > 0 {
          overlays := overlays + [Overlay(formats, directory)];
        }
      }
    }
    assert entries[..|entries|] == entries;
  }

  // ---------------------------------------------------------------------
  // The manifest

  /** Why `info` stops. */
  datatype InfoError =
    | ZipNotFound(path: string)
    | ManifestNotInZip
    | NotInDatapack
    | ParseFailed
    | MissingPack
    | MissingPackFormat
    | InvalidPackFormat
    | DataUnreadable

  /** What `info` reads from pack.mcmeta. */
  datatype Manifest = Manifest(
    packFormat: u8,
    supportedFormats: seq<u8>,
    description: seq<Span>,
    features: seq<(string, bool)>,
    filter: Option<seq<BlockPattern>>,
    overlays: seq<Overlay>)

  /** The manifest-field checks shared by both modes: "pack" must exist,
      and so must its "pack_format", which must be a u64; the pack format is
      that value truncated to u8. */
  function PackFormatOf(mcmeta: Json): (r: Result<u8, InfoError>)
    ensures r == Err(MissingPack) <==> Get(mcmeta, "pack").None?
    ensures r == Err(MissingPackFormat) <==>
      Get(mcmeta, "pack").Some? && Get(Get(mcmeta, "pack").value, "pack_format").None?
    ensures r == Err(InvalidPackFormat) <==>
      Get(mcmeta, "pack").Some? && Get(Get(mcmeta, "pack").value, "pack_format").Some?
      && AsU64(Get(Get(mcmeta, "pack").value, "pack_format").value).None?
    ensures r.Ok? ==>
      r.value == AsU8(AsU64(Get(Get(mcmeta, "pack").value, "pack_format").value).value)
  {
    var pack :- (match Get(mcmeta, "pack") case Some(p) => Ok(p) case None => Err(MissingPack));
    var pf :- (match Get(pack, "pack_format")
               case Some(v) => Ok(v) case None => Err(MissingPackFormat));
    var n :- (match AsU64(pf) case Some(n) => Ok(n) case None => Err(InvalidPackFormat));
    Ok(AsU8(n))
  }

  /** The description field, read as "" when it is missing. */
  function DescriptionOf(pack: Json): (r: seq<Span>)
    ensures Get(pack, "description").None? ==> r == [Plain("")]
  {
    ParseDescription(Get(pack, "description").GetOr(Str("")))
  }

  /** The manifest a pack.mcmeta holds, or the first check it fails. */
  function ManifestOf(content: Content): (r: Result<Manifest, InfoError>)
    ensures ParseContent(content).None? ==> r == Err(ParseFailed)
    ensures ParseContent(content).Some? ==>
      var mcmeta := ParseContent(content).value;
      (r.Ok? <==> PackFormatOf(mcmeta).Ok?)
      && (r.Err? ==> r.error == PackFormatOf(mcmeta).error)
      && (r.Ok? ==>
            var pack := Get(mcmeta, "pack").value;
            var entries := NestedArray(mcmeta, "overlays", "entries");
            && r.value.packFormat == PackFormatOf(mcmeta).value
            && r.value.supportedFormats == ParseSupportedFormats(r.value.packFormat, Get(pack, "supported_formats"))
            && r.value.description == DescriptionOf(pack)
            && r.value.features == Features(mcmeta)
            && r.value.filter == ParseFilter(mcmeta)
            && r.value.overlays == (if entries.Some? then KeptOverlays(entries.value) else []))
  {
    match ParseContent(content)
    case None => Err(ParseFailed)
    case Some(mcmeta) =>
      match PackFormatOf(mcmeta)
      case Err(e) => Err(e)
      case Ok(pf) =>
        var pack := Get(mcmeta, "pack").value;
        var entries := NestedArray(mcmeta, "overlays", "entries");
        Ok(Manifest(
          pf,
          ParseSupportedFormats(pf, Get(pack, "supported_formats")),
          DescriptionOf(pack),
          Features(mcmeta),
          ParseFilter(mcmeta),
          if entries.Some? then KeptOverlays(entries.value) else []))
  }

  /** Reads pack.mcmeta as collect_info and collect_info_from_zip do: parse,
      check the "pack" object, then gather the extras. */
  method ReadManifest(content: Content) returns (r: Result<Manifest, InfoError>)
    ensures r == ManifestOf(content)
  {
    var parsed := ParseContent(content);
    if parsed.None? {
      return Err(ParseFailed);
    }
    var mcmeta := parsed.value;
    var pf := PackFormatOf(mcmeta);
    if pf.Err? {
      return Err(pf.error);
    }
    var pack := Get(mcmeta, "pack").value;
    var supported := ParseSupportedFormats(pf.value, Get(pack, "supported_formats"));
    var description := DescriptionOf(pack);
    var features := ParseFeatures(mcmeta);
    var filter := ParseFilter(mcmeta);
    var overlays := ParseOverlays(mcmeta);
    r := Ok(Manifest(pf.value, supported, description, features, filter, overlays));
  }
}
