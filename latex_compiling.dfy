/** The shell command that `compileLatex` hands to `exec`
    (src/latexCompiling.ts); running it is not modelled. */
module LatexCompiling {
  import opened Results
  import opened Strings
  import opened Host
  import LatexExtraction

  /** `replaceAll("\\", "/")`: every backslash becomes a slash. */
  function NormalizeSeparators(path: string): (r: string)
    ensures |r| == |path| && '\\' !in r
    ensures forall i :: 0 <= i < |path| ==> r[i] == if path[i] == '\\' then '/' else path[i]
    decreases |path|
  {
    if |path| == 0 then ""
    else [if path[0] == '\\' then '/' else path[0]] + NormalizeSeparators(path[1..])
  }

  /** Normalising twice is normalising once. */
  lemma NormalizeIdempotent(path: string)
    ensures NormalizeSeparators(NormalizeSeparators(path)) == NormalizeSeparators(path)
  {
  }

  /** A path without a backslash is left as it is. */
  lemma NormalizeKeepsSlashPaths(path: string)
    requires '\\' !in path
    ensures NormalizeSeparators(path) == path
  {
  }

  /** `getVaultPath`: the vault's base path in `/` form on the desktop
      (`basePath` is the file-system adapter's base path), `None` when the
      adapter is not a file-system adapter. */
  function GetVaultPath(basePath: Option<string>): (r: Option<string>)
    ensures r.None? <==> basePath.None?
    ensures r.Some? ==> '\\' !in r.value && |r.value| == |basePath.value|
    ensures r.Some? ==> forall i :: 0 <= i < |r.value| ==>
      r.value[i] == if basePath.value[i] == '\\' then '/' else basePath.value[i]
  {
    match basePath
    case None => None
    case Some(p) => Some(NormalizeSeparators(p))
  }

  /** The folder the command changes into. */
  function CompilePath(vaultPath: string, settings: Settings, projectName: string): (path: string)
    ensures vaultPath + "/" <= path
    ensures |path| == |vaultPath| + |settings.projectsFolder| + |projectName| + 10
    ensures path[|path| - 8..] == "/compile"
  {
    vaultPath + "/" + settings.projectsFolder + "/" + projectName + "/compile"
  }

  /** The compile command changes into the folder the `.tex` file is written to. */
  lemma TexFileInCompileFolder(vaultPath: string, settings: Settings, projectName: string, outputName: string)
    ensures CompilePath(vaultPath, settings, projectName) + "/" + outputName + ".tex"
         == vaultPath + "/" + LatexExtraction.TexPath(settings, projectName, outputName)
  {
    var folder := settings.projectsFolder + "/" + projectName;
    assert CompilePath(vaultPath, settings, projectName) == vaultPath + "/" + folder + "/compile";
    assert LatexExtraction.TexPath(settings, projectName, outputName) == folder + "/compile/" + outputName + ".tex";
  }

  function LatexStage(outputName: string): string {
    "pdflatex.exe -synctex=1 -interaction=nonstopmode " + outputName + ".tex"
  }

  function BibtexStage(outputName: string): string {
    "bibtex " + outputName
  }

  function OpenStage(outputName: string): string {
    "start " + outputName + ".pdf"
  }

  /** The command line as `compileLatex` builds it by concatenation. */
  function CompileCommand(basePath: Option<string>, settings: Settings,
                          projectName: string, outputName: string): (r: Result<string>)
    ensures r.Err? <==> basePath.None?
    ensures r.Err? ==> r.error == UnsupportedPlatform
  {
    var vaultPath := GetVaultPath(basePath);
    if vaultPath.None? then Err(UnsupportedPlatform)
    else
      var cd := "cd " + CompilePath(vaultPath.value, settings, projectName);
      var cmdLatex := LatexStage(outputName);
      var cmdSimple := cmdLatex;
      var cmdExtended := cmdLatex + " & " + BibtexStage(outputName) + " & " + cmdLatex + " & " + cmdLatex;
      var cmdCompile := if settings.compileExtended == "extended" then cmdExtended else cmdSimple;
      var cmdPdf := OpenStage(outputName);
      Ok(cd + " & " + cmdCompile + " & " + cmdPdf)
  }

  /** The typesetting passes: one pass in simple mode; in extended mode a
      pass, the bibliography, and two more passes. */
  function Chain(extended: bool, outputName: string): seq<string> {
    if extended then [LatexStage(outputName), BibtexStage(outputName), LatexStage(outputName), LatexStage(outputName)]
    else [LatexStage(outputName)]
  }

  /** The stage list: change into the compile folder, typeset, open the PDF. */
  function Stages(vaultPath: string, settings: Settings, projectName: string, outputName: string): seq<string> {
    ["cd " + CompilePath(vaultPath, settings, projectName)]
      + Chain(settings.compileExtended == "extended", outputName)
      + [OpenStage(outputName)]
  }

  /** The passes joined by `" & "` are the text `compileLatex` builds for them. */
  lemma ChainJoin(extended: bool, outputName: string)
    ensures var l, b := LatexStage(outputName), BibtexStage(outputName);
      Join(Chain(extended, outputName), " & ")
        == if extended then l + " & " + b + " & " + l + " & " + l else l
  {
    var l, b, sep := LatexStage(outputName), BibtexStage(outputName), " & ";
    if extended {
      JoinAppend([l, b], [l, l], sep);
      assert [l, b] + [l, l] == Chain(extended, outputName);
      JoinCons(l, [b], sep);
      JoinCons(l, [l], sep);
      assert (l + sep + b) + sep + (l + sep + l) == l + sep + b + sep + l + sep + l;
    }
  }

  /** The command is the stage list joined by `" & "`: three stages unless
      the compile mode is exactly `"extended"`, which gives six. Every
      stage is sequenced with `&`, so no pass waits for the previous one
      to succeed. */
  lemma CommandIsJoinedStages(basePath: string, settings: Settings, projectName: string, outputName: string)
    ensures var vaultPath := NormalizeSeparators(basePath);
      var stages := Stages(vaultPath, settings, projectName, outputName);
      CompileCommand(Some(basePath), settings, projectName, outputName) == Ok(Join(stages, " & ")) &&
      (|stages| == 6 <==> settings.compileExtended == "extended") &&
      (|stages| == 3 <==> settings.compileExtended != "extended")
  {
    var vaultPath := NormalizeSeparators(basePath);
    var extended := settings.compileExtended == "extended";
    var cd := "cd " + CompilePath(vaultPath, settings, projectName);
    var chain := Chain(extended, outputName);
    var o, sep := OpenStage(outputName), " & ";
    ChainJoin(extended, outputName);
    JoinAppend([cd], chain, sep);
    JoinAppend([cd] + chain, [o], sep);
    assert Stages(vaultPath, settings, projectName, outputName) == ([cd] + chain) + [o];
  }

  /** Extended mode on output `thesis`: typeset, bibliography, typeset,
      typeset, open. */
  lemma ThesisExample(vaultPath: string, projectName: string)
    ensures Stages(vaultPath, DefaultSettings, projectName, "thesis")[1..]
         == ["pdflatex.exe -synctex=1 -interaction=nonstopmode thesis.tex", "bibtex thesis",
             "pdflatex.exe -synctex=1 -interaction=nonstopmode thesis.tex",
             "pdflatex.exe -synctex=1 -interaction=nonstopmode thesis.tex", "start thesis.pdf"]
  {
    assert LatexStage("thesis") == "pdflatex.exe -synctex=1 -interaction=nonstopmode thesis.tex";
    assert BibtexStage("thesis") == "bibtex thesis";
    assert OpenStage("thesis") == "start thesis.pdf";
  }
}
