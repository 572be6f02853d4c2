/** The use-case manager behind the Streamlit front end (ui/core.py): a
    catalogue of use cases built from the directories under
    projects/<category>, and a dispatcher that runs one use case and wraps
    its outcome in a result record.

    The file system and Python's import machinery are inputs here: a
    directory listing is a sequence of `Entry` values (absent when the
    category directory does not exist), and importing a module is a
    function from module paths to `Import` outcomes. */
module UseCaseCore {
  import opened Wrappers
  import opened PyStrings

  // ---------------------------------------------------------------------
  // Values that cross the boundary to the use cases

  /** A JSON-like Python value: the input data handed to a use case, the
      value a use case returns, parsed transaction data. */
  datatype Json =
    | JNull
    | JBool(b: bool)
    | JInt(i: int)
    | JStr(s: string)
    | JList(items: seq<Json>)
    | JDict(fields: map<string, Json>)

  type InputData = map<string, Json>

  /** What a call into a use case's own code did: it returned `value` after
      printing `printed`, or it raised an exception. */
  datatype CallOutcome =
    | Returned(value: Json, printed: string)
    | Raised(message: string, traceback: string)

  /** The attributes of an imported use-case module that dispatch looks at:
      a callable `run` (absent when missing or not callable) and a
      `crew` object with a `kickoff` attribute (absent when either is). */
  datatype Module = Module(run: Option<InputData -> CallOutcome>, kickoff: Option<CallOutcome>)

  /** Importing (and reloading) a module either succeeds or raises. */
  datatype Import =
    | Imported(loaded: Module)
    | ImportFailed(message: string, traceback: string)

  /** The dict that run_use_case returns, one constructor per shape. */
  datatype RunRecord =
    | NotFound(error: string)
    | Completed(result: Json, output: string)
    | Failed(error: string, traceback: string)
  {
    /** The keys of the dict. */
    function Keys(): set<string> {
      match this
      case NotFound(_) => {"error"}
      case Completed(_, _) => {"result", "output", "success"}
      case Failed(_, _) => {"error", "traceback", "success"}
    }

    /** `record.get("success")`. */
    function Success(): Option<bool> {
      match this
      case NotFound(_) => None
      case Completed(_, _) => Some(true)
      case Failed(_, _) => Some(false)
    }
  }

  // ---------------------------------------------------------------------
  // The catalogue

  /** One name listed in projects/<category>: whether it is a directory,
      and the text of its README.md when that file exists. */
  datatype Entry = Entry(name: string, isDir: bool, readme: Option<string>)

  /** The metadata stored for one use case. */
  datatype UseCase = UseCase(
    id: string,
    title: string,
    description: string,
    category: string,
    modulePath: string)

  const Prefix: string := "use_case_"
  const NoDescription: string := "No description available"
  const NoResult: string := "Module executed but no result available"
  const MaxDescription: nat := 200
  const Ellipsis: string := "..."

  predicate IsUseCaseDir(e: Entry) {
    StartsWith(e.name, Prefix) && e.isDir
  }

  function ModulePath(category: string, item: string): string {
    "projects." + category + "." + item + ".main"
  }

  /** The lines of a README after stripping surrounding whitespace. */
  function Lines(content: string): seq<string> {
    Split(Strip(content), '\n')
  }

  /** Index of the first line that starts with "# ", or `|lines|`. */
  function FirstHeading(lines: seq<string>): (k: nat)
    ensures k <= |lines|
    ensures k < |lines| ==> StartsWith(lines[k], "# ")
    ensures forall j :: 0 <= j < k ==> !StartsWith(lines[j], "# ")
  {
    if lines == [] || StartsWith(lines[0], "# ") then 0
    else 1 + FirstHeading(lines[1..])
  }

  /** The directory name with underscores turned into spaces, title-cased. */
  function DefaultTitle(item: string): (r: string)
    ensures |r| == |item| && '_' !in r
    ensures forall i :: 0 <= i < |item| && item[i] == '_' ==> r[i] == ' '
    ensures forall i :: 0 <= i < |item| && item[i] != '_' ==> ToLower(r[i]) == ToLower(item[i])
    ensures forall i :: 0 <= i < |item| && IsLetter(item[i]) ==>
      (IsUpper(r[i]) <==> i == 0 || !IsLetter(item[i - 1]))
  {
    var spaced := Replace(item, '_', ' ');
    assert forall i :: 0 <= i < |item| ==> (IsLetter(spaced[i]) <==> IsLetter(item[i]));
    Title(spaced)
  }

  /** The title of a use case whose README holds `content`: the text after
      the "# " of the first heading line, else the default title. */
  function ReadmeTitle(content: string, item: string): (r: string)
    ensures var lines := Lines(content); var k := FirstHeading(lines);
      if k < |lines| then lines[k] == "# " + r else r == DefaultTitle(item)
  {
    var lines := Lines(content);
    var k := FirstHeading(lines);
    if k < |lines| then lines[k][2..] else DefaultTitle(item)
  }

  predicate IsDescriptionLine(line: string) {
    line != "" && !StartsWith(line, "#")
  }

  /** The non-empty lines that do not start with '#', in order. */
  function DescriptionLines(lines: seq<string>): (r: seq<string>)
    ensures forall k :: 0 <= k < |r| ==> IsDescriptionLine(r[k])
    ensures forall line :: line in r <==> line in lines && IsDescriptionLine(line)
  {
    if lines == [] then []
    else (if IsDescriptionLine(lines[0]) then [lines[0]] else []) + DescriptionLines(lines[1..])
  }

  /** One line is kept exactly when it is a description line. */
  lemma DescriptionLinesOne(line: string)
    ensures DescriptionLines([line]) == if IsDescriptionLine(line) then [line] else []
  {
    assert [line][1..] == [];
  }

  /** The filter works line by line: the description lines of two blocks
      of lines are those of the first followed by those of the second. */
  lemma {:induction false} DescriptionLinesAppend(a: seq<string>, b: seq<string>)
    ensures DescriptionLines(a + b) == DescriptionLines(a) + DescriptionLines(b)
    decreases |a|
  {
    if a == [] {
      assert a + b == b;
    } else {
      assert (a + b)[1..] == a[1..] + b;
      DescriptionLinesAppend(a[1..], b);
    }
  }

  /** The description drawn from a README holding `content`: the
      description lines joined by single spaces, led by the first of them,
      or the placeholder when there is none. */
  function ReadmeDescription(content: string): (r: string)
    ensures var desc := DescriptionLines(Lines(content));
      (desc == [] ==> r == NoDescription) &&
      (desc != [] ==> r == Join(desc, " ") && StartsWith(r, desc[0]))
  {
    var desc := DescriptionLines(Lines(content));
    if desc == [] then NoDescription
    else
      JoinHead(desc, " ");
      Join(desc, " ")
  }

  /** The description as stored: cut to 200 characters plus "..." when
      longer than 200, unchanged otherwise. */
  function Truncate(description: string): (r: string)
    ensures |r| <= MaxDescription + |Ellipsis|
    ensures |description| <= MaxDescription ==> r == description
    ensures |description| > MaxDescription ==>
      |r| == MaxDescription + |Ellipsis| && r[..MaxDescription] == description[..MaxDescription] && r[MaxDescription..] == Ellipsis
  {
    if |description| > MaxDescription then description[..MaxDescription] + Ellipsis else description
  }

  /** The loop state of _load_use_cases: the dict filled so far and the
      local `title`, which outlives the iteration that bound it
      (None: never bound in this call). */
  datatype LoadState = LoadState(cases: map<string, UseCase>, title: Option<string>)

  /** One iteration of the loop over the listing. An entry without a
      README reads `title` as the previous iteration left it; when no
      iteration has bound it yet, the NameError is caught and the entry is
      skipped. */
  function LoadStep(category: string, st: LoadState, e: Entry): LoadState {
    if !IsUseCaseDir(e) then st
    else
      var title := if e.readme.Some? then Some(ReadmeTitle(e.readme.value, e.name)) else st.title;
      var description := if e.readme.Some? then ReadmeDescription(e.readme.value) else NoDescription;
      match title
      case None => st
      case Some(t) =>
        var uc := UseCase(e.name, t, Truncate(description), category, ModulePath(category, e.name));
        LoadState(st.cases[e.name := uc], title)
  }

  /** The loop state after the entries of `listing`, in order. */
  function LoadAll(category: string, listing: seq<Entry>): LoadState {
    if listing == [] then LoadState(map[], None)
    else LoadStep(category, LoadAll(category, listing[..|listing| - 1]), listing[|listing| - 1])
  }

  /** The dict _load_use_cases returns for a category directory. */
  function Catalog(category: string, dir: Option<seq<Entry>>): map<string, UseCase> {
    match dir
    case None => map[]
    case Some(listing) => LoadAll(category, listing).cases
  }

  /** _load_use_cases: scan the listing of projects/<category>. */
  method LoadUseCases(category: string, dir: Option<seq<Entry>>) returns (useCases: map<string, UseCase>)
    ensures dir.None? ==> useCases == map[]
    ensures useCases == Catalog(category, dir)
  {
    useCases := map[];
    if dir.None? {
      return;
    }
    var listing := dir.value;
    var title: Option<string> := None;
    var i := 0;
    while i < |listing|
      invariant 0 <= i <= |listing|
      invariant LoadState(useCases, title) == LoadAll(category, listing[..i])
    {
      useCases, title := LoadEntry(category, useCases, title, listing[i]);
      LoadAllSnoc(category, listing, i);
      i := i + 1;
    }
    assert listing[..i] == listing;
  }

  /** One iteration of the loop of _load_use_cases over the listing,
      on the dict filled so far and the local `title`. */
  method LoadEntry(category: string, useCases: map<string, UseCase>, title: Option<string>, item: Entry)
    returns (useCases': map<string, UseCase>, title': Option<string>)
    ensures LoadState(useCases', title') == LoadStep(category, LoadState(useCases, title), item)
  {
    useCases', title' := useCases, title;
    if IsUseCaseDir(item) {
      var description := NoDescription;
      if item.readme.Some? {
        title' := Some(ReadmeTitle(item.readme.value, item.name));
        description := ReadmeDescription(item.readme.value);
      }
      if title'.Some? {
        var stored := if |description| > MaxDescription then description[..MaxDescription] + Ellipsis else description;
        assert stored == Truncate(description);
        useCases' := useCases'[item.name := UseCase(item.name, title'.value, stored, category, ModulePath(category, item.name))];
      }
      LoadStepUseCaseDir(category, LoadState(useCases, title), item);
    }
  }

  lemma LoadAllSnoc(category: string, listing: seq<Entry>, i: nat)
    requires i < |listing|
    ensures LoadAll(category, listing[..i + 1]) == LoadStep(category, LoadAll(category, listing[..i]), listing[i])
  {
    assert listing[..i + 1][..i] == listing[..i];
  }

  /** LoadStep on a use-case directory, spelled out. */
  lemma LoadStepUseCaseDir(category: string, st: LoadState, e: Entry)
    requires IsUseCaseDir(e)
    ensures var title := if e.readme.Some? then Some(ReadmeTitle(e.readme.value, e.name)) else st.title;
      var description := if e.readme.Some? then ReadmeDescription(e.readme.value) else NoDescription;
      LoadStep(category, st, e) ==
        if title.None? then st
        else LoadState(st.cases[e.name := UseCase(e.name, title.value, Truncate(description), category, ModulePath(category, e.name))], title)
  {
  }

  // ---------------------------------------------------------------------
  // Properties of the catalogue

  /** Some use-case directory before position `i` has a README. */
  predicate ReadmeBefore(listing: seq<Entry>, i: int) {
    exists j :: 0 <= j < i && j < |listing| && IsUseCaseDir(listing[j]) && listing[j].readme.Some?
  }

  /** Entry `i` ends up in the dict unless a later entry replaces it. */
  predicate Kept(listing: seq<Entry>, i: int)
    requires 0 <= i < |listing|
  {
    IsUseCaseDir(listing[i]) && (listing[i].readme.Some? || ReadmeBefore(listing, i))
  }

  lemma {:induction false} ReadmeBeforePrefix(listing: seq<Entry>, n: nat, i: int)
    requires n <= |listing| && i <= n
    ensures ReadmeBefore(listing[..n], i) <==> ReadmeBefore(listing, i)
  {
    if ReadmeBefore(listing, i) {
      var j :| 0 <= j < i && j < |listing| && IsUseCaseDir(listing[j]) && listing[j].readme.Some?;
      assert listing[..n][j] == listing[j];
    }
  }

  /** `title` is bound after the loop exactly when some use-case
      directory had a README. */
  lemma {:induction false} TitleBound(category: string, listing: seq<Entry>)
    ensures LoadAll(category, listing).title.Some? <==> ReadmeBefore(listing, |listing|)
    decreases |listing|
  {
    if listing != [] {
      var n := |listing| - 1;
      TitleBound(category, listing[..n]);
      ReadmeBeforePrefix(listing, n, n);
      if ReadmeBefore(listing, |listing|) && !ReadmeBefore(listing, n) {
        var j :| 0 <= j < |listing| && IsUseCaseDir(listing[j]) && listing[j].readme.Some?;
        assert j == n;
      }
    }
  }

  /** Exactly the kept use-case directories are keys: only directories
      whose name starts with "use_case_", and of those only the ones with
      a README or with a README-bearing use-case directory before them. */
  lemma {:induction false} CatalogKeys(category: string, listing: seq<Entry>)
    ensures forall name :: name in LoadAll(category, listing).cases <==>
      exists i :: 0 <= i < |listing| && listing[i].name == name && Kept(listing, i)
    decreases |listing|
  {
    if listing != [] {
      var n := |listing| - 1;
      var prefix := listing[..n];
      CatalogKeys(category, prefix);
      TitleBound(category, prefix);
      ReadmeBeforePrefix(listing, n, n);
      forall i | 0 <= i < n
        ensures prefix[i] == listing[i] && (Kept(prefix, i) <==> Kept(listing, i))
      {
        ReadmeBeforePrefix(listing, n, i);
      }
      forall name
        ensures name in LoadAll(category, listing).cases <==>
          exists i :: 0 <= i < |listing| && listing[i].name == name && Kept(listing, i)
      {
        if name in LoadAll(category, listing).cases && name !in LoadAll(category, prefix).cases {
          assert listing[n].name == name && Kept(listing, n);
        }
        if name in LoadAll(category, prefix).cases {
          var i :| 0 <= i < n && prefix[i].name == name && Kept(prefix, i);
          assert listing[i].name == name && Kept(listing, i);
        }
        if exists i :: 0 <= i < |listing| && listing[i].name == name && Kept(listing, i) {
          var i :| 0 <= i < |listing| && listing[i].name == name && Kept(listing, i);
          if i < n {
            assert prefix[i].name == name && Kept(prefix, i);
          }
        }
      }
    }
  }

  /** Every stored record is keyed by its id, carries its category and
      the module path projects.<category>.<item>.main, and has a
      description of at most 203 characters. */
  lemma {:induction false} CatalogRecords(category: string, listing: seq<Entry>)
    ensures forall name :: name in LoadAll(category, listing).cases ==>
      var uc := LoadAll(category, listing).cases[name];
      && uc.id == name
      && uc.category == category
      && uc.modulePath == "projects." + category + "." + name + ".main"
      && |uc.description| <= MaxDescription + |Ellipsis|
    decreases |listing|
  {
    if listing != [] {
      CatalogRecords(category, listing[..|listing| - 1]);
    }
  }

  /** Entries after position `n` whose names differ from `name` leave the
      record stored under `name` alone. */
  lemma {:induction false} RecordPreserved(category: string, listing: seq<Entry>, n: nat, name: string)
    requires n <= |listing|
    requires name in LoadAll(category, listing[..n]).cases
    requires forall m :: n <= m < |listing| && IsUseCaseDir(listing[m]) ==> listing[m].name != name
    ensures name in LoadAll(category, listing).cases
    ensures LoadAll(category, listing).cases[name] == LoadAll(category, listing[..n]).cases[name]
    decreases |listing|
  {
    if n < |listing| {
      var last := |listing| - 1;
      assert listing[..last][..n] == listing[..n];
      RecordPreserved(category, listing[..last], n, name);
    } else {
      assert listing[..n] == listing;
    }
  }

  /** After a README-bearing use-case directory with no README-bearing
      use-case directory after it, `title` holds that README's title. */
  lemma {:induction false} TitleCarried(category: string, listing: seq<Entry>, j: nat)
    requires j < |listing| && IsUseCaseDir(listing[j]) && listing[j].readme.Some?
    requires forall m :: j < m < |listing| && IsUseCaseDir(listing[m]) ==> listing[m].readme.None?
    ensures LoadAll(category, listing).title == Some(ReadmeTitle(listing[j].readme.value, listing[j].name))
    decreases |listing|
  {
    var last := |listing| - 1;
    if j < last {
      TitleCarried(category, listing[..last], j);
    } else {
      assert listing[..last + 1] == listing;
    }
  }

  /** The record of a use-case directory that has a README and is not
      listed again later: title from its first heading (or the default
      title), description from its text, cut to 200 characters. */
  lemma ReadmeRecord(category: string, listing: seq<Entry>, i: nat)
    requires i < |listing| && IsUseCaseDir(listing[i]) && listing[i].readme.Some?
    requires forall m :: i < m < |listing| && IsUseCaseDir(listing[m]) ==> listing[m].name != listing[i].name
    ensures var e := listing[i];
      && e.name in LoadAll(category, listing).cases
      && LoadAll(category, listing).cases[e.name]
        == UseCase(e.name, ReadmeTitle(e.readme.value, e.name), Truncate(ReadmeDescription(e.readme.value)),
                   category, ModulePath(category, e.name))
  {
    assert listing[..i + 1][..i] == listing[..i];
    RecordPreserved(category, listing, i + 1, listing[i].name);
  }

  /** The quirk of ui/core.py:33-49: a use-case directory without a README
      takes the title of the nearest README-bearing use-case directory
      listed before it, and the default description. */
  lemma InheritedTitle(category: string, listing: seq<Entry>, j: nat, i: nat)
    requires j < i < |listing|
    requires IsUseCaseDir(listing[j]) && listing[j].readme.Some?
    requires IsUseCaseDir(listing[i]) && listing[i].readme.None?
    requires forall m :: j < m < i && IsUseCaseDir(listing[m]) ==> listing[m].readme.None?
    requires forall m :: i < m < |listing| && IsUseCaseDir(listing[m]) ==> listing[m].name != listing[i].name
    ensures var e := listing[i];
      && e.name in LoadAll(category, listing).cases
      && LoadAll(category, listing).cases[e.name]
        == UseCase(e.name, ReadmeTitle(listing[j].readme.value, listing[j].name), NoDescription,
                   category, ModulePath(category, e.name))
  {
    TitleCarried(category, listing[..i], j);
    assert listing[..i + 1][..i] == listing[..i];
    RecordPreserved(category, listing, i + 1, listing[i].name);
  }

  // ---------------------------------------------------------------------
  // Dispatch

  /** The call run_use_case makes inside the stdout redirect: a callable
      `run` gets the input data, else `crew.kickoff()`, else nothing runs
      and the fixed message is the result. */
  function Dispatch(m: Module, input: InputData): (c: CallOutcome)
    ensures m.run.Some? ==> c == m.run.value(input)
    ensures m.run.None? && m.kickoff.Some? ==> c == m.kickoff.value
    ensures m.run.None? && m.kickoff.None? ==> c == Returned(JStr(NoResult), "")
  {
    match m.run
    case Some(run) => run(input)
    case None =>
      match m.kickoff
      case Some(kickoff) => kickoff
      case None => Returned(JStr(NoResult), "")
  }

  /** Import the module of a found use case and run it: success records
      carry the returned value and the captured output, exceptions become
      error records with their message and traceback. */
  function Execute(uc: UseCase, input: InputData, load: string -> Import): (r: RunRecord)
    ensures !r.NotFound? && "success" in r.Keys()
    ensures r.Success() == Some(true) <==>
      load(uc.modulePath).Imported? && Dispatch(load(uc.modulePath).loaded, input).Returned?
    ensures r.Completed? ==>
      var c := Dispatch(load(uc.modulePath).loaded, input);
      r.result == c.value && r.output == c.printed
    ensures r.Failed? && load(uc.modulePath).ImportFailed? ==>
      r.error == load(uc.modulePath).message && r.traceback == load(uc.modulePath).traceback
    ensures r.Failed? && load(uc.modulePath).Imported? ==>
      var c := Dispatch(load(uc.modulePath).loaded, input);
      c.Raised? && r.error == c.message && r.traceback == c.traceback
  {
    match load(uc.modulePath)
    case ImportFailed(message, traceback) => Failed(message, traceback)
    case Imported(m) =>
      match Dispatch(m, input)
      case Returned(value, printed) => Completed(value, printed)
      case Raised(message, traceback) => Failed(message, traceback)
  }

  /** UseCaseManager: the catalogues of both categories, loaded once. */
  class UseCaseManager {
    const financialUseCases: map<string, UseCase>
    const researchUseCases: map<string, UseCase>

    constructor (financialDir: Option<seq<Entry>>, researchDir: Option<seq<Entry>>)
      ensures financialUseCases == Catalog("financial_use_cases", financialDir)
      ensures researchUseCases == Catalog("research_use_cases", researchDir)
    {
      var financial := LoadUseCases("financial_use_cases", financialDir);
      var research := LoadUseCases("research_use_cases", researchDir);
      financialUseCases := financial;
      researchUseCases := research;
    }

    /** Both catalogues in one dict; on a shared key the research record
        wins because it is merged second. */
    method GetAllUseCases() returns (allCases: map<string, UseCase>)
      ensures allCases.Keys == financialUseCases.Keys + researchUseCases.Keys
      ensures forall id :: id in researchUseCases ==> allCases[id] == researchUseCases[id]
      ensures forall id :: id in financialUseCases && id !in researchUseCases ==>
        allCases[id] == financialUseCases[id]
    {
      allCases := map[];
      allCases := allCases + financialUseCases;
      allCases := allCases + researchUseCases;
    }

    /** run_use_case: look the id up in the financial catalogue first, then
        in the research one; an unknown id gives a record whose only key is
        "error". */
    function RunUseCase(id: string, input: InputData, load: string -> Import): (r: RunRecord)
      ensures r.NotFound? <==> id !in financialUseCases && id !in researchUseCases
      ensures r.NotFound? ==> r.Keys() == {"error"} && r.error == "Use case " + id + " not found"
      ensures id in financialUseCases ==> r == Execute(financialUseCases[id], input, load)
      ensures id !in financialUseCases && id in researchUseCases ==> r == Execute(researchUseCases[id], input, load)
    {
      if id in financialUseCases then Execute(financialUseCases[id], input, load)
      else if id in researchUseCases then Execute(researchUseCases[id], input, load)
      else NotFound("Use case " + id + " not found")
    }
  }
}
