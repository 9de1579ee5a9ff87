/** Finding the current project from the open note (src/projectIdentification.ts):
    a project is a child of the projects folder named `<number>_<name>`. */
module ProjectIdentification {
  import opened Results
  import opened Strings
  import opened Host

  /** The part of a note's basename before its first `_`, or the whole
      basename when it has none. */
  function ProjectNumber(basename: string): (number: string)
    ensures number <= basename && '_' !in number
    ensures number == basename || basename[|number|] == '_'
  {
    SplitFirst(basename, "_");
    NoUnderscoreBefore(basename, Split(basename, "_")[0]);
    Split(basename, "_")[0]
  }

  /** A prefix at none of whose positions `"_"` occurs holds no `_`. */
  lemma NoUnderscoreBefore(s: string, prefix: string)
    requires prefix <= s
    requires forall j :: 0 <= j < |prefix| ==> !OccursAt(s, "_", j)
    ensures '_' !in prefix
  {
    forall j | 0 <= j < |prefix|
      ensures prefix[j] != '_'
    {
      assert !OccursAt(s, "_", j);
      assert s[j..][..1] == [s[j]];
    }
  }

  /** `getProjectNumberFromCurrentFile`: the active note is given by its
      basename, `None` when no note is open. */
  function GetProjectNumberFromCurrentFile(activeFile: Option<string>): (r: Result<string>)
    ensures activeFile.None? <==> r.Err?
    ensures r.Err? ==> r.error == NoActiveFile
    ensures r.Ok? ==> r.value == ProjectNumber(activeFile.value)
  {
    match activeFile
    case None => Err(NoActiveFile)
    case Some(basename) => Ok(ProjectNumber(basename))
  }

  /** `getProjectsFolder`: the entry at the projects-folder path must exist
      and be a folder; its children's names are returned. */
  function GetProjectsFolder(entry: Entry): (r: Result<seq<string>>)
    ensures entry.Missing? ==> r == Err(ProjectsFolderMissing)
    ensures entry.FileEntry? ==> r == Err(ProjectsFolderNotAFolder)
    ensures entry.FolderEntry? ==> r == Ok(entry.children)
  {
    match entry
    case Missing => Err(ProjectsFolderMissing)
    case FileEntry => Err(ProjectsFolderNotAFolder)
    case FolderEntry(children) => Ok(children)
  }

  /** `getProjectsInFolder`: the folder must have at least one child. */
  function GetProjectsInFolder(children: seq<string>): (r: Result<seq<string>>)
    ensures r.Err? <==> |children| == 0
    ensures r.Err? ==> r.error == NoProjects
    ensures r.Ok? ==> r.value == children
  {
    if |children| == 0 then Err(NoProjects) else Ok(children)
  }

  /** `names.filter(name => name.startsWith(prefix))`: the names that start
      with `prefix`, each as often as in the input, in input order. */
  function FilterByPrefix(names: seq<string>, prefix: string): (r: seq<string>)
    ensures |r| <= |names|
    ensures forall i :: 0 <= i < |r| ==> prefix <= r[i]
    ensures forall x :: multiset(r)[x] == if prefix <= x then multiset(names)[x] else 0
    decreases |names|
  {
    if |names| == 0 then []
    else
      assert names == [names[0]] + names[1..];
      if prefix <= names[0] then [names[0]] + FilterByPrefix(names[1..], prefix)
      else FilterByPrefix(names[1..], prefix)
  }

  /** Filtering distributes over concatenation, so the order of the input is kept. */
  lemma {:induction false} FilterAppend(a: seq<string>, b: seq<string>, prefix: string)
    ensures FilterByPrefix(a + b, prefix) == FilterByPrefix(a, prefix) + FilterByPrefix(b, prefix)
    decreases |a|
  {
    if |a| == 0 {
      assert a + b == b;
    } else {
      assert (a + b)[0] == a[0] && (a + b)[1..] == a[1..] + b;
      FilterAppend(a[1..], b, prefix);
    }
  }

  /** Filtering twice with the same prefix is filtering once. */
  lemma {:induction false} FilterIdempotent(names: seq<string>, prefix: string)
    ensures FilterByPrefix(FilterByPrefix(names, prefix), prefix) == FilterByPrefix(names, prefix)
    decreases |names|
  {
    if |names| > 0 {
      FilterIdempotent(names[1..], prefix);
      var rest := FilterByPrefix(names[1..], prefix);
      if prefix <= names[0] {
        assert ([names[0]] + rest)[0] == names[0] && ([names[0]] + rest)[1..] == rest;
      }
    }
  }

  /** The prefix a project folder of number `n` starts with. */
  function ProjectPrefix(projectNumber: string): string {
    projectNumber + "_"
  }

  /** `getMatchingProjectName`: exactly one child may start with
      `<number>_`; zero matches and several matches are both errors. */
  function GetMatchingProjectName(projects: seq<string>, projectNumber: string): (r: Result<string>)
    ensures |FilterByPrefix(projects, ProjectPrefix(projectNumber))| == 0 ==> r == Err(ProjectNotFound(projectNumber))
    ensures |FilterByPrefix(projects, ProjectPrefix(projectNumber))| > 1 ==> r == Err(MultipleProjects(projectNumber))
    ensures r.Ok? ==> ProjectPrefix(projectNumber) <= r.value && r.value in projects
    ensures r.Ok? ==> forall i :: 0 <= i < |projects| && ProjectPrefix(projectNumber) <= projects[i] ==> projects[i] == r.value
    ensures r.Ok? <==> |FilterByPrefix(projects, ProjectPrefix(projectNumber))| == 1
  {
    var matching := FilterByPrefix(projects, projectNumber + "_");
    if |matching| == 0 then Err(ProjectNotFound(projectNumber))
    else if |matching| > 1 then Err(MultipleProjects(projectNumber))
    else
      SingleMatch(projects, projectNumber + "_");
      Ok(matching[0])
  }

  /** When exactly one name has the prefix, every name with the prefix is
      that one, and it is one of the names. */
  lemma SingleMatch(names: seq<string>, prefix: string)
    requires |FilterByPrefix(names, prefix)| == 1
    ensures FilterByPrefix(names, prefix)[0] in names
    ensures forall i :: 0 <= i < |names| && prefix <= names[i] ==> names[i] == FilterByPrefix(names, prefix)[0]
  {
    var m := FilterByPrefix(names, prefix);
    assert m == [m[0]];
    assert m[0] in multiset(m);
    forall i | 0 <= i < |names| && prefix <= names[i]
      ensures names[i] == m[0]
    {
      assert names[i] in multiset(names);
      assert names[i] in multiset(m);
    }
  }

  /** `getProjectNameFromProjectNumber`: an empty number fails before the
      folder is looked up; then the folder must exist, be a folder and have
      children, in that order, before any matching; the match is filtered
      twice in the code, which changes nothing. */
  function GetProjectNameFromProjectNumber(projectNumber: string, settings: Settings, vault: Vault): (r: Result<string>)
    ensures projectNumber == "" ==> r == Err(NoProjectNumber)
    ensures projectNumber != "" ==>
      match AbstractFileAt(vault, settings.projectsFolder)
      case Missing => r == Err(ProjectsFolderMissing)
      case FileEntry => r == Err(ProjectsFolderNotAFolder)
      case FolderEntry(children) =>
        if |children| == 0 then r == Err(NoProjects)
        else r == GetMatchingProjectName(children, projectNumber)
  {
    if projectNumber == "" then Err(NoProjectNumber)
    else
      var projectsFolder :- GetProjectsFolder(AbstractFileAt(vault, settings.projectsFolder));
      var projects :- GetProjectsInFolder(projectsFolder);
      var matchingProjects := FilterByPrefix(projects, projectNumber + "_");
      FilterIdempotent(projects, projectNumber + "_");
      GetMatchingProjectName(matchingProjects, projectNumber)
  }

  /** `getProjectNameAndNumber`: `[number, name]` in that order. */
  function GetProjectNameAndNumber(settings: Settings, vault: Vault, activeFile: Option<string>): (r: Result<seq<string>>)
    ensures activeFile.None? ==> r == Err(NoActiveFile)
    ensures r.Ok? ==> |r.value| == 2 && r.value[0] == ProjectNumber(activeFile.value)
    ensures r.Ok? ==> ProjectPrefix(r.value[0]) <= r.value[1] && r.value[0] != ""
    ensures r.Ok? ==> Ok(r.value[1]) == GetProjectNameFromProjectNumber(r.value[0], settings, vault)
    ensures activeFile.Some? ==>
      var name := GetProjectNameFromProjectNumber(ProjectNumber(activeFile.value), settings, vault);
      (r.Ok? <==> name.Ok?) && (r.Err? ==> r.error == name.error)
  {
    var projectNumber :- GetProjectNumberFromCurrentFile(activeFile);
    var projectName :- GetProjectNameFromProjectNumber(projectNumber, settings, vault);
    Ok([projectNumber, projectName])
  }

  /** Number `1` does not match a folder of project `10`. */
  lemma PrefixIsExact()
    ensures GetMatchingProjectName(["10_x"], "1") == Err(ProjectNotFound("1"))
  {
    assert "1_"[1] != "10_x"[1];
  }

  /** One match among two projects, and an ambiguous number. */
  lemma MatchingExamples()
    ensures GetMatchingProjectName(["1_intro", "2_intro"], "2") == Ok("2_intro")
    ensures GetMatchingProjectName(["1_intro", "1_extra"], "1") == Err(MultipleProjects("1"))
  {
    assert "2_"[0] != "1_intro"[0] && "2_" <= "2_intro";
    assert "1_" <= "1_intro" && "1_" <= "1_extra";
  }
}
