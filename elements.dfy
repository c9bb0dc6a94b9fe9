/** The element catalog (src/elements.rs): the element types a datapack can
    hold with their file extensions, the validity test, and the starter
    content written for a new element. */
module Elements {
  import opened Wrappers
  import opened Json

  /** ELEMENT_TYPES: (name, extension) pairs, in the order of the source. */
  const ElementTypes: seq<(string, string)> := [
    ("function", ".mcfunction"),
    ("tag", ".json"),
    ("advancement", ".json"),
    ("banner_pattern", ".json"),
    ("chat_type", ".json"),
    ("damage_type", ".json"),
    ("enchantment", ".json"),
    ("enchantment_provider", ".json"),
    ("instrument", ".json"),
    ("item_modifier", ".json"),
    ("jukebox_song", ".json"),
    ("loot_table", ".json"),
    ("painting_variant", ".json"),
    ("predicate", ".json"),
    ("recipe", ".json"),
    ("trim_material", ".json"),
    ("trim_pattern", ".json"),
    ("walk_variant", ".json")
  ]

  /** The names of the table, in order. */
  function Names(table: seq<(string, string)>): (names: seq<string>)
    ensures |names| == |table|
    ensures forall i :: 0 <= i < |table| ==> names[i] == table[i].0
  {
    if |table| == 0 then [] else [table[0].0] + Names(table[1..])
  }

  /** The table has 18 entries with distinct names. */
  lemma ElementNamesDistinct()
    ensures |ElementTypes| == 18
    ensures forall i, j :: 0 <= i < j < |ElementTypes| ==> ElementTypes[i].0 != ElementTypes[j].0
  {
  }

  /** "function" files end in ".mcfunction" and all others in ".json". */
  lemma ElementExtensions()
    ensures forall i :: 0 <= i < |ElementTypes| ==>
      ElementTypes[i].1 == (if ElementTypes[i].0 == "function" then ".mcfunction" else ".json")
  {
  }

  /** `table.iter().any(|(name, _)| *name == t)`. */
  function AnyNamed(table: seq<(string, string)>, t: string): (b: bool)
    ensures b <==> exists i :: 0 <= i < |table| && table[i].0 == t
    decreases |table|
  {
    if |table| == 0 then false
    else if table[0].0 == t then true
    else
      var b := AnyNamed(table[1..], t);
      assert b ==> exists i :: 0 <= i < |table| && table[i].0 == t by {
        if b {
          var i :| 0 <= i < |table[1..]| && table[1..][i].0 == t;
          assert table[i + 1].0 == t;
        }
      }
      b
  }

  /** The names of the catalog as a set. */
  const ElementNames: set<string> := {
    "function", "tag", "advancement", "banner_pattern", "chat_type", "damage_type",
    "enchantment", "enchantment_provider", "instrument", "item_modifier", "jukebox_song",
    "loot_table", "painting_variant", "predicate", "recipe", "trim_material", "trim_pattern",
    "walk_variant"
  }

  /** An element type is valid exactly when it is one of the eighteen names. */
  lemma ValidIffNamed(t: string)
    ensures IsValidElementType(t) <==> t in ElementNames
  {
    assert forall i :: 0 <= i < |ElementTypes| ==> ElementTypes[i].0 in ElementNames;
    if t in ElementNames {
      var i :=
        if t == "function" then 0 else if t == "tag" then 1 else if t == "advancement" then 2
        else if t == "banner_pattern" then 3 else if t == "chat_type" then 4
        else if t == "damage_type" then 5 else if t == "enchantment" then 6
        else if t == "enchantment_provider" then 7 else if t == "instrument" then 8
        else if t == "item_modifier" then 9 else if t == "jukebox_song" then 10
        else if t == "loot_table" then 11 else if t == "painting_variant" then 12
        else if t == "predicate" then 13 else if t == "recipe" then 14
        else if t == "trim_material" then 15 else if t == "trim_pattern" then 16 else 17;
      assert ElementTypes[i].0 == t;
    }
  }

  /** is_valid_element_type: t names an entry of the table. */
  function IsValidElementType(t: string): (b: bool)
    ensures b <==> exists i :: 0 <= i < |ElementTypes| && ElementTypes[i].0 == t
  {
    AnyNamed(ElementTypes, t)
  }

  /** Every name Names lists belongs to an entry of the table. */
  lemma NamesAreNamed(table: seq<(string, string)>)
    ensures forall i :: 0 <= i < |table| ==> AnyNamed(table, Names(table)[i])
  {
    forall i | 0 <= i < |table| ensures AnyNamed(table, Names(table)[i]) {
      assert table[i].0 == Names(table)[i];
    }
  }

  /** The names of the catalog in table order, as the error message and
      the element prompt list them: each is a valid element type. */
  function ValidNames(): (names: seq<string>)
    ensures |names| == |ElementTypes|
    ensures forall i :: 0 <= i < |names| ==> IsValidElementType(names[i])
  {
    NamesAreNamed(ElementTypes);
    Names(ElementTypes)
  }

  /** `table.iter().find(|(name, _)| *name == t).map(|(_, ext)| ext)`: the
      extension of the first entry named t. */
  function FindExtension(table: seq<(string, string)>, t: string): (r: Option<string>)
    ensures r.Some? <==> exists i :: 0 <= i < |table| && table[i].0 == t
    ensures r.Some? ==> exists i :: 0 <= i < |table| && table[i] == (t, r.value)
    decreases |table|
  {
    if |table| == 0 then None
    else if table[0].0 == t then Some(table[0].1)
    else
      var r := FindExtension(table[1..], t);
      assert r.Some? ==> exists i :: 0 <= i < |table| && table[i] == (t, r.value) by {
        if r.Some? {
          var i :| 0 <= i < |table[1..]| && table[1..][i] == (t, r.value);
          assert table[i + 1] == (t, r.value);
        }
      }
      assert (exists i :: 0 <= i < |table| && table[i].0 == t) ==> r.Some? by {
        if i :| 0 <= i < |table| && table[i].0 == t {
          assert i > 0 && table[1..][i - 1].0 == t;
        }
      }
      r
  }

  /** The extension of a valid element type: ".mcfunction" for functions,
      ".json" for everything else. */
  function Extension(t: string): (r: Option<string>)
    ensures r.Some? <==> IsValidElementType(t)
    ensures r.Some? ==> r.value == (if t == "function" then ".mcfunction" else ".json")
  {
    ElementExtensions();
    FindExtension(ElementTypes, t)
  }

  /** The names that have their own arm in get_sample_content besides
      "function". */
  const TemplateNames: set<string> := {
    "advancement", "banner_pattern", "chat_type", "damage_type", "enchantment",
    "enchantment_provider", "instrument", "item_modifier", "jukebox_song", "loot_table",
    "painting_variant", "predicate", "recipe", "tag", "trim_material", "trim_pattern",
    "wolf_variant"
  }

  /** The JSON template of a type that has its own arm in get_sample_content. */
  function Template(t: string): (doc: Json)
    requires t in TemplateNames
    ensures doc.Obj? && |doc.fields| > 0
  {
    match t
    case "advancement" => Obj(map["criteria" := EmptyObject])
    case "banner_pattern" => Obj(map["asset_id" := Str(""), "translation_key" := Str("")])
    case "chat_type" => Obj(map[
      "chat" := Obj(map["translation_key" := Str(""), "parameters" := Arr([])]),
      "narration" := Obj(map["translation_key" := Str(""), "parameters" := Arr([])])])
    case "damage_type" => Obj(map[
      "message_id" := Str(""), "exhaustion" := Num(Int(0)), "scaling" := Str("never")])
    case "enchantment" => Obj(map[
      "description" := Str(""), "supported_items" := Str(""),
      "weight" := Num(Int(1)), "max_level" := Num(Int(1)),
      "min_cost" := Obj(map["base" := Num(Int(0)), "per_level_above_first" := Num(Int(0))]),
      "max_cost" := Obj(map["base" := Num(Int(0)), "per_level_above_first" := Num(Int(0))]),
      "anvil_cost" := Num(Int(0)), "slots" := Arr([])])
    case "enchantment_provider" => Obj(map[
      "type" := Str("minecraft:single"), "enchantment" := Str("")])
    case "instrument" => Obj(map[
      "sound_event" := Str(""), "range" := Num(Int(1)), "use_duration" := Num(Int(1)),
      "description" := Str("")])
    case "item_modifier" => Obj(map["function" := Str("")])
    case "jukebox_song" => Obj(map[
      "description" := Str(""), "comparator_output" := Num(Int(0)),
      "length_in_seconds" := Num(Int(1)), "sound_event" := Str("")])
    case "loot_table" => Obj(map["type" := Str("")])
    case "painting_variant" => Obj(map[
      "asset_id" := Str(""), "width" := Num(Int(1)), "height" := Num(Int(1)),
      "title" := Str(""), "author" := Str("")])
    case "predicate" => Obj(map["condition" := Str("")])
    case "recipe" => Obj(map["type" := Str("")])
    case "tag" => Obj(map["values" := Arr([Str("minecraft:stone")])])
    case "trim_material" => Obj(map[
      "asset_name" := Str(""), "description" := Str(""), "ingredient" := Str(""),
      "item_model_index" := Num(Int(0))])
    case "trim_pattern" => Obj(map[
      "asset_id" := Str(""), "description" := Str(""), "template_item" := Str("")])
    case "wolf_variant" => Obj(map[
      "biomes" := Str(""), "wild_texture" := Str(""), "tame_texture" := Str(""),
      "angry_texture" := Str("")])
  }

  /** get_sample_content: the empty text for a function, the type's JSON
      template for the types that have one, and the empty object for any
      other name. */
  function GetSampleContent(t: string): (r: Content)
    ensures r.Text? <==> t == "function"
    ensures r.Text? ==> r.text == ""
    ensures !r.Text? ==> r.Pretty? && r.doc.Obj?
    ensures t != "function" && t !in TemplateNames ==> r == Pretty(EmptyObject)
    ensures t in TemplateNames ==> |r.doc.fields| > 0
  {
    if t == "function" then Text("")
    else if t in TemplateNames then Pretty(Template(t))
    else Pretty(EmptyObject)
  }

  /** The unit test of the catalog: "function" is a valid element type,
      and a new function starts out as an empty file. */
  lemma FunctionIsValid(f: string)
    requires f == "function"
    ensures IsValidElementType(f)
    ensures GetSampleContent(f) == Text("")
  {
    assert ElementTypes[0].0 == f;
  }

  /** The unit test of the catalog: "invalid" is not a valid element type. */
  lemma InvalidIsRejected(bad: string)
    requires bad == "invalid"
    ensures !IsValidElementType(bad)
  {
    assert bad !in ElementNames;
    ValidIffNamed(bad);
  }

  /** A new tag lists minecraft:stone, and a new advancement has no
      criteria. */
  lemma TagAndAdvancementTemplates(tag: string, advancement: string)
    requires tag == "tag" && advancement == "advancement"
    ensures GetSampleContent(tag) == Pretty(Obj(map["values" := Arr([Str("minecraft:stone")])]))
    ensures GetSampleContent(advancement) == Pretty(Obj(map["criteria" := EmptyObject]))
  {
  }

  /** The catalog lists "walk_variant", which has no template and gets the
      empty object. */
  lemma WalkVariantHasNoTemplate(walk: string)
    requires walk == "walk_variant"
    ensures IsValidElementType(walk)
    ensures GetSampleContent(walk) == Pretty(EmptyObject)
  {
    assert GetSampleContent(walk) == Pretty(EmptyObject);
    assert IsValidElementType(walk) by { ValidIffNamed(walk); }
  }

  /** The "wolf_variant" template belongs to no valid element type. */
  lemma WolfVariantIsNotListed(wolf: string)
    requires wolf == "wolf_variant"
    ensures !IsValidElementType(wolf)
    ensures |GetSampleContent(wolf).doc.fields| > 0
  {
    assert |GetSampleContent(wolf).doc.fields| > 0;
    assert wolf !in ElementNames;
    ValidIffNamed(wolf);
  }

  /** Every valid element type other than "walk_variant" is "function" or
      has its own template. */
  lemma TemplatesCoverCatalog(t: string)
    requires IsValidElementType(t) && t != "walk_variant"
    ensures t == "function" || t in TemplateNames
  {
    ValidIffNamed(t);
  }
}
