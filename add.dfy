/** The `add` command (src/commands/add.rs): choose and validate an element
    type, choose a namespace, build the path of the new file, create its
    directories, ask before overwriting, and write the element's template.
    The prompts' answers, the current directory and the order in which
    the data directory lists its entries are parameters. */
module AddCommand {
  import opened Wrappers
  import opened Json
  import opened Elements
  import opened FileSystem

  /** The command-line arguments of `add`. */
  datatype AddArgs = AddArgs(
    element: Option<string>,
    path: Option<Path>,
    namespace: Option<string>,
    name: Option<string>,
    force: bool)

  /** What the prompts answer when they are shown; None where the prompt
      fails (`interact()?`). A pick is an index into the offered list. */
  datatype Answers = Answers(
    elementPick: Option<nat>,
    name: Option<string>,
    namespacePick: Option<nat>,
    namespaceText: Option<string>,
    overwrite: Option<bool>)

  datatype AddError =
    | InvalidElementType(valid: seq<string>)
    | NotADatapack
    | PromptFailed
    | Io(cause: FsError)

  datatype AddOutcome = Skipped(file: Path) | Added(file: Path)

  /** A Select prompt: it fails on an empty list, and an index outside the
      list is read as a failed prompt. */
  function Select(options: seq<string>, pick: Option<nat>): (r: Result<string, AddError>)
    ensures r.Ok? <==> pick.Some? && pick.value < |options|
    ensures r.Ok? ==> r.value == options[pick.value]
    ensures r.Err? ==> r.error == PromptFailed
  {
    if pick.Some? && pick.value < |options| then Ok(options[pick.value]) else Err(PromptFailed)
  }

  /** A text prompt. */
  function Input(answer: Option<string>): (r: Result<string, AddError>)
    ensures r.Ok? <==> answer.Some?
    ensures r.Ok? ==> r.value == answer.value
    ensures r.Err? ==> r.error == PromptFailed
  {
    if answer.Some? then Ok(answer.value) else Err(PromptFailed)
  }

  /** The element type: the argument, else the pick among the names of the
      catalog, in table order. */
  function ChosenElement(element: Option<string>, pick: Option<nat>): (r: Result<string, AddError>)
    ensures element.Some? ==> r == Ok(element.value)
    ensures element.None? && r.Ok? ==> IsValidElementType(r.value)
    ensures r.Err? ==> element.None? && r.error == PromptFailed
    ensures element.None? ==> (r.Ok? <==> pick.Some? && pick.value < |ValidNames()|)
    ensures element.None? && r.Ok? ==> r.value == ValidNames()[pick.value]
  {
    match element
    case Some(t) => Ok(t)
    case None =>
      Select(ValidNames(), pick)
  }

  /** `namespaces.retain(|ns| ns != "minecraft")`: the list without
      "minecraft", in order. */
  function WithoutMinecraft(names: seq<string>): (r: seq<string>)
    ensures forall n :: n in r <==> n in names && n != "minecraft"
    ensures multiset(r) == multiset(names)["minecraft" := 0]
  {
    if |names| == 0 then []
    else
      var rest := WithoutMinecraft(names[1..]);
      assert names == [names[0]] + names[1..];
      if names[0] == "minecraft" then rest else [names[0]] + rest
  }

  /** How the namespace is found when none is given. */
  datatype NamespaceChoice =
    | Given(ns: string)
    | Auto(ns: string)
    | SelectFrom(options: seq<string>)
    | AskText

  /** The decision tree of add::run: with flags "minecraft" is not a
      candidate; one candidate is taken as is; none means choosing among
      every namespace (with flags) or typing one (without); several mean
      choosing among them, with "minecraft" offered as well when no flag
      was used. */
  function ResolveNamespace(namespace: Option<string>, flagsUsed: bool, listing: seq<string>): (c: NamespaceChoice)
    ensures namespace.Some? ==> c == Given(namespace.value)
    ensures c.Auto? ==> c.ns in listing && (flagsUsed ==> c.ns != "minecraft")
    ensures c.SelectFrom? ==> forall o :: o in c.options ==> o in listing || o == "minecraft"
    ensures c == AskText <==> namespace.None? && !flagsUsed && |listing| == 0
    ensures namespace.None? && !flagsUsed && |listing| > 1 ==> c == SelectFrom(listing + ["minecraft"])
    ensures namespace.None? && flagsUsed && |WithoutMinecraft(listing)| > 1 ==> c == SelectFrom(WithoutMinecraft(listing))
    ensures namespace.None? && flagsUsed && |WithoutMinecraft(listing)| == 0 ==> c == SelectFrom(listing)
  {
    if namespace.Some? then Given(namespace.value)
    else
      var candidates := if flagsUsed then WithoutMinecraft(listing) else listing;
      if |candidates| == 0 then
        if flagsUsed then SelectFrom(listing) else AskText
      else if |candidates| == 1 then
        Auto(candidates[0])
      else if flagsUsed then SelectFrom(candidates)
      else SelectFrom(candidates + ["minecraft"])
  }

  /** A single remaining candidate is taken without a prompt, and with
      flags it is never "minecraft". */
  lemma SoleCandidateIsTaken(flagsUsed: bool, listing: seq<string>)
    ensures var candidates := if flagsUsed then WithoutMinecraft(listing) else listing;
      ResolveNamespace(None, flagsUsed, listing).Auto? <==> |candidates| == 1
    ensures var candidates := if flagsUsed then WithoutMinecraft(listing) else listing;
      |candidates| == 1 ==> ResolveNamespace(None, flagsUsed, listing) == Auto(candidates[0])
  {
  }

  /** With flags and no other namespace, the list offered is every
      namespace directory, which can then only be "minecraft". */
  lemma FlaggedFallbackOffersOnlyMinecraft(listing: seq<string>)
    requires |WithoutMinecraft(listing)| == 0
    ensures ResolveNamespace(None, true, listing) == SelectFrom(listing)
    ensures forall o :: o in listing ==> o == "minecraft"
  {
    forall o | o in listing
      ensures o == "minecraft"
    {
    }
  }

  /** With flags and several candidates, "minecraft" is not offered. */
  lemma FlaggedChoiceExcludesMinecraft(listing: seq<string>)
    requires |WithoutMinecraft(listing)| > 1
    ensures ResolveNamespace(None, true, listing) == SelectFrom(WithoutMinecraft(listing))
    ensures "minecraft" !in ResolveNamespace(None, true, listing).options
  {
  }

  /** Without flags and with several namespaces, "minecraft" is appended to
      them, so it is offered twice when the pack has a minecraft namespace. */
  lemma MinecraftOfferedTwice(listing: seq<string>)
    requires |listing| > 1 && "minecraft" in listing
    ensures ResolveNamespace(None, false, listing).SelectFrom?
    ensures multiset(ResolveNamespace(None, false, listing).options)["minecraft"] >= 2
  {
    var options := listing + ["minecraft"];
    assert ResolveNamespace(None, false, listing) == SelectFrom(options);
    var i :| 0 <= i < |listing| && listing[i] == "minecraft";
    assert multiset(listing)["minecraft"] >= 1;
    assert multiset(options) == multiset(listing) + multiset{"minecraft"};
  }

  /** The namespace directories read from data: none when data is
      missing, an error when data is a file, else the entries as listed. */
  function NamespaceListing(fs: Fs, data: Path, listing: seq<string>): (r: Result<seq<string>, AddError>)
    ensures data !in fs ==> r == Ok([])
    ensures IsFile(fs, data) ==> r == Err(Io(NotADirectory(data)))
    ensures IsDir(fs, data) ==> r == Ok(listing)
  {
    if data !in fs then Ok([])
    else if fs[data].RegularFile? then Err(Io(NotADirectory(data)))
    else Ok(listing)
  }

  /** `listing` is what read_dir of `dir` yields, kept to directories: each
      subdirectory once, in some order. */
  ghost predicate ListsSubdirs(fs: Fs, dir: Path, listing: seq<string>) {
    && (forall n :: n in listing <==> IsDir(fs, dir + [n]))
    && (forall i, j :: 0 <= i < j < |listing| ==> listing[i] != listing[j])
  }

  /** The namespace a choice ends with, from the prompts' answers. */
  function ChosenNamespace(choice: NamespaceChoice, answers: Answers): (r: Result<string, AddError>)
    ensures choice.Given? || choice.Auto? ==> r == Ok(choice.ns)
    ensures choice.SelectFrom? ==> r == Select(choice.options, answers.namespacePick)
    ensures choice.AskText? ==> r == Input(answers.namespaceText)
  {
    match choice
    case Given(ns) => Ok(ns)
    case Auto(ns) => Ok(ns)
    case SelectFrom(options) => Select(options, answers.namespacePick)
    case AskText => Input(answers.namespaceText)
  }

  /** The datapack directory: the path argument, else the current one. */
  function Root(path: Option<Path>, cwd: Path): (r: Path)
    ensures path.Some? ==> r == path.value
    ensures path.None? ==> r == cwd
  {
    if path.Some? then path.value else cwd
  }

  /** Everything add decides before it touches the file system. */
  datatype Plan = Plan(elementType: string, name: string, root: Path, namespace: string)

  /** The namespace of add::run (add.rs 67-144): the argument, else the
      choice made from the namespace directories of the pack. */
  function PlanNamespace(namespace: Option<string>, flagsUsed: bool, answers: Answers,
                         listing: seq<string>, fs: Fs, root: Path): (r: Result<string, AddError>)
    ensures namespace.Some? ==> r == Ok(namespace.value)
    ensures namespace.None? && NamespaceListing(fs, root + ["data"], listing).Err? ==>
      r == Err(NamespaceListing(fs, root + ["data"], listing).error)
    ensures namespace.None? && NamespaceListing(fs, root + ["data"], listing).Ok? ==>
      r == ChosenNamespace(ResolveNamespace(None, flagsUsed, NamespaceListing(fs, root + ["data"], listing).value), answers)
  {
    if namespace.Some? then Ok(namespace.value)
    else
      var names :- NamespaceListing(fs, root + ["data"], listing);
      ChosenNamespace(ResolveNamespace(None, flagsUsed, names), answers)
  }

  /** The decisions of add::run in their order: element type (then its
      validation), name, the pack.mcmeta check, then the namespace. */
  function AddPlan(args: AddArgs, answers: Answers, cwd: Path, listing: seq<string>, fs: Fs): (r: Result<Plan, AddError>)
    ensures args.element.Some? && !IsValidElementType(args.element.value) ==>
      r == Err(InvalidElementType(ValidNames()))
    ensures r.Ok? ==> IsValidElementType(r.value.elementType)
    ensures r.Ok? ==> r.value.root == Root(args.path, cwd) && r.value.root + ["pack.mcmeta"] in fs
    ensures r.Ok? && args.element.Some? ==> r.value.elementType == args.element.value
    ensures r.Ok? && args.name.Some? ==> r.value.name == args.name.value
    ensures r.Ok? ==>
      Ok(r.value.namespace) == PlanNamespace(args.namespace, args.element.Some? || args.name.Some?, answers, listing, fs, r.value.root)
    ensures (args.element.Some? && IsValidElementType(args.element.value) && args.name.Some?
             && Root(args.path, cwd) + ["pack.mcmeta"] !in fs) ==> r == Err(NotADatapack)
  {
    var elementType :- ChosenElement(args.element, answers.elementPick);
    if !IsValidElementType(elementType) then Err(InvalidElementType(ValidNames()))
    else
      var flagsUsed := args.element.Some? || args.name.Some?;
      var name :- if args.name.Some? then Ok(args.name.value) else Input(answers.name);
      var root := Root(args.path, cwd);
      if root + ["pack.mcmeta"] !in fs then Err(NotADatapack)
      else
        var namespace :- PlanNamespace(args.namespace, flagsUsed, answers, listing, fs, root);
        Ok(Plan(elementType, name, root, namespace))
  }

  /** With a flag and no namespace argument, add only ever writes into a
      namespace directory that already exists. */
  lemma FlaggedNamespaceExists(args: AddArgs, answers: Answers, cwd: Path, listing: seq<string>, fs: Fs)
    requires args.element.Some? || args.name.Some?
    requires args.namespace.None?
    requires ListsSubdirs(fs, Root(args.path, cwd) + ["data"], listing)
    requires AddPlan(args, answers, cwd, listing, fs).Ok?
    ensures var plan := AddPlan(args, answers, cwd, listing, fs).value;
      IsDir(fs, plan.root + ["data", plan.namespace])
  {
    var plan := AddPlan(args, answers, cwd, listing, fs).value;
    FlaggedChoiceListed(answers, listing, fs, plan.root, plan.namespace);
  }

  /** The namespace chosen with a flag is one of the listed directories. */
  lemma FlaggedChoiceListed(answers: Answers, listing: seq<string>, fs: Fs, root: Path, ns: string)
    requires ListsSubdirs(fs, root + ["data"], listing)
    requires PlanNamespace(None, true, answers, listing, fs, root) == Ok(ns)
    ensures IsDir(fs, root + ["data", ns])
  {
    var data := root + ["data"];
    var names := NamespaceListing(fs, data, listing).value;
    assert ChosenNamespace(ResolveNamespace(None, true, names), answers) == Ok(ns);
    assert ns in names;
    assert data + [ns] == root + ["data", ns];
  }

  /** data/<namespace>/<element type>/<name><extension> below the root,
      the extension taken from the catalog. */
  function TargetFile(plan: Plan): (file: Path)
    requires IsValidElementType(plan.elementType)
    ensures |file| == |plan.root| + 4
    ensures file[..|file| - 1] == plan.root + ["data", plan.namespace, plan.elementType]
    ensures file[|file| - 1] == plan.name + (if plan.elementType == "function" then ".mcfunction" else ".json")
  {
    plan.root + ["data", plan.namespace, plan.elementType, plan.name + Extension(plan.elementType).value]
  }

  /** A new function named "main" in the "demo" namespace goes to
      data/demo/function/main.mcfunction. */
  lemma FunctionTarget(root: Path, t: string)
    requires t == "function"
    ensures IsValidElementType(t)
    ensures TargetFile(Plan(t, "main", root, "demo")) == root + ["data", "demo", "function", "main.mcfunction"]
  {
    FunctionIsValid(t);
    assert "main" + ".mcfunction" == "main.mcfunction";
    var file := TargetFile(Plan(t, "main", root, "demo"));
    assert file == file[..|file| - 1] + [file[|file| - 1]];
  }

  /** add::run. The parent directories of the new file are created before
      the overwrite question, so a declined overwrite keeps them; the file
      then holds the element's template. */
  method Run(args: AddArgs, answers: Answers, cwd: Path, listing: seq<string>, fs: Fs)
    returns (after: Fs, r: Result<AddOutcome, AddError>)
    requires Valid(fs)
    ensures Valid(after)
    ensures AddPlan(args, answers, cwd, listing, fs).Err? ==>
      r == Err(AddPlan(args, answers, cwd, listing, fs).error) && after == fs
    ensures AddPlan(args, answers, cwd, listing, fs).Ok? ==>
      Applied(AddPlan(args, answers, cwd, listing, fs).value, args.force, answers.overwrite, fs, after, r)
    ensures r.Ok? && r.value.Added? ==>
      r.value.file in after && after[r.value.file] == RegularFile(GetSampleContent(AddPlan(args, answers, cwd, listing, fs).value.elementType))
  {
    var planned := AddPlan(args, answers, cwd, listing, fs);
    if planned.Err? {
      return fs, Err(planned.error);
    }
    after, r := Apply(planned.value, args.force, answers.overwrite, fs);
  }

  /** The outcome of the second half of add::run for a plan: an error
      making the parent directories stops it; an existing file without
      --force is left alone unless the overwrite is confirmed (no answer
      is a failed prompt); otherwise the template is written. */
  predicate Applied(plan: Plan, force: bool, overwrite: Option<bool>, fs: Fs, after: Fs, r: Result<AddOutcome, AddError>)
    requires Valid(fs) && IsValidElementType(plan.elementType)
  {
    var file := TargetFile(plan);
    var dirs := CreateDirAll(fs, file[..|file| - 1]);
    && (dirs.Err? ==> r == Err(Io(dirs.error)) && after == fs)
    && (dirs.Ok? ==>
          var asked := file in dirs.value && !force;
          && (asked && overwrite.None? ==> r == Err(PromptFailed) && after == dirs.value)
          && (asked && overwrite == Some(false) ==> r == Ok(Skipped(file)) && after == dirs.value)
          && (!asked || overwrite == Some(true) ==>
                var written := Write(dirs.value, file, GetSampleContent(plan.elementType));
                && (written.Err? ==> r == Err(Io(written.error)) && after == dirs.value)
                && (written.Ok? ==> r == Ok(Added(file)) && after == written.value)))
  }

  /** The second half of add::run, once the plan stands: make the parent
      directories, ask before overwriting unless --force, write the
      template. */
  method Apply(plan: Plan, force: bool, overwrite: Option<bool>, fs: Fs)
    returns (after: Fs, r: Result<AddOutcome, AddError>)
    requires Valid(fs) && IsValidElementType(plan.elementType)
    ensures Valid(after)
    ensures Applied(plan, force, overwrite, fs, after, r)
    ensures r.Ok? && r.value.Added? ==>
      r.value.file in after && after[r.value.file] == RegularFile(GetSampleContent(plan.elementType))
  {
    var file := TargetFile(plan);
    var dirs := CreateDirAll(fs, file[..|file| - 1]);
    if dirs.Err? {
      return fs, Err(Io(dirs.error));
    }
    after := dirs.value;
    if file in after && !force {
      if overwrite.None? {
        return after, Err(PromptFailed);
      }
      if !overwrite.value {
        return after, Ok(Skipped(file));
      }
    }
    var written := Write(after, file, GetSampleContent(plan.elementType));
    if written.Err? {
      return after, Err(Io(written.error));
    }
    return written.value, Ok(Added(file));
  }

  /** Once the directories exist and the target is not a directory, the
      file is written whenever it was missing, --force was given or the
      overwrite was confirmed. */
  lemma AddWritesTemplate(fs: Fs, plan: Plan)
    requires Valid(fs) && IsValidElementType(plan.elementType)
    requires !FileOnWay(fs, TargetFile(plan)[..|TargetFile(plan)| - 1])
    requires !IsDir(CreateDirAll(fs, TargetFile(plan)[..|TargetFile(plan)| - 1]).value, TargetFile(plan))
    ensures var file := TargetFile(plan);
      var dirs := CreateDirAll(fs, file[..|file| - 1]).value;
      Write(dirs, file, GetSampleContent(plan.elementType)) == Ok(dirs[file := RegularFile(GetSampleContent(plan.elementType))])
  {
  }
}
