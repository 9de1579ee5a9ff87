# A verified model of an Obsidian LaTeX-compiler plugin's core

The plugin compiles a "project" of Markdown notes into a PDF. The active
note's basename starts with a project number (`12_intro` is in project
`12`). The plugin finds the project folder `<number>_<name>` among the
children of the configured projects folder. It then reads the project's
main note `compile/<number>_main`, whose front matter declares one output
(`name: file1, file2, ...`). Next it scans every listed note for fenced
blocks opened by a line exactly `` ```latex `` and closed by a line exactly
`` ``` ``, and joins the collected lines into one `.tex` text.
Finally it builds the shell command that typesets it.

This project models that logic as pure Dafny functions, following the
source, and proves properties about it:

- `results.dfy` (`Results`): one `Error` constructor per distinct error the
  modelled code throws (`readFiles` and `getFilesFromMain` share the
  missing-project-name error), plus the `Result` and `Option` types.
- `host.dfy` (`Host`): the two settings and the vault. The vault is a map
  from file path to content and a map from folder path to child names.
  `Host.DefaultSettings` holds the defaults of `src/main.ts:15-18`.
- `strings.dfy` (`Strings`): JavaScript's `split` (leftmost,
  non-overlapping cuts; `"".split(sep)` is `[""]`) and `join`, with the
  laws relating them.
- `latex_extraction.dfy` (`LatexExtraction`): the fence scanner, written as
  the two mutually recursive functions of the source. `ScanDocument` is the
  same scan as a loop, and `Run` is a reference two-state machine; both are
  proved equal to the scanner. The file also holds the stitching over
  several notes, the front-matter parse, reading notes from the vault, and
  the whole extraction up to the write.
- `project_identification.dfy` (`ProjectIdentification`): the project
  number from the basename, the folder checks, and the unique-prefix match.
- `latex_compiling.dfy` (`LatexCompiling`): the vault-path normalisation
  and the compile command string.

Two behaviours of the scanner are easy to misread, and the model keeps
them as the code has them:

- The scanner stops when `pos >= text.length - 1`
  (src/latexExtraction.ts:50-52, 72-74), so the last line of a note is
  never read. An unterminated block therefore ends at the penultimate line,
  although the doc comment of `collectLatex` (src/latexExtraction.ts:37-39)
  speaks of collecting rows until the end is reached. `"```latex\nA\nB"`
  yields `"\nA"` (`UnterminatedBlockExample`).
- Inside a block only an exact `` ``` `` line closes it
  (src/latexExtraction.ts:53-56). A second `` ```latex `` line is content,
  so the notes `["no code here", "```latex\nA\n```latex\nB\n```", ""]`
  give the join of `""`, `"\nA\n```latex\nB"` and `""`
  (`ThreeNotesExample`).

## Model

| member | source | states |
|---|---|---|
| Strings.Split | src/latexExtraction.ts:92 | JavaScript `split` with a non-empty separator: never an empty array; its cuts are described by `FindLeftmost` and `SplitFirst` |
| Strings.Join | src/latexExtraction.ts:93 | JavaScript `join`: an empty array joins to `""`, and a join starts with its first part |
| Strings.FindLeftmost | src/latexExtraction.ts:92 | the cut point `split` uses is an occurrence of the separator, and none starts before it; -1 means none occurs at all |
| Strings.SplitFirst | src/projectIdentification.ts:32-33 | the first segment of a split is the prefix before the leftmost separator, or the whole string when there is none; the remaining segments are the split of the rest |
| Strings.JoinSplit | src/latexExtraction.ts:92 | joining the segments of a split with the same separator gives back the original string |
| Strings.SplitJoin | src/latexExtraction.ts:159-162 | splitting a join gives back the parts when no part holds the separator's first character |
| Strings.SplitCharCount | src/latexExtraction.ts:154-156 | splitting on one character gives one more segment than that character's occurrences |
| Strings.JoinAppend | src/latexExtraction.ts:93 | joining a concatenation is joining the halves with the separator between them |
| Strings.JoinNoChar | src/latexExtraction.ts:162 | a character absent from every part and from the separator is absent from the join |
| LatexExtraction.CollectLatex | src/latexExtraction.ts:46-57 | fails exactly for a negative position or no lines, with that error; otherwise the incoming text is a prefix of the result, and whatever is added starts with a newline |
| LatexExtraction.FindLatexBlocks | src/latexExtraction.ts:68-79 | the same contract for the outside-a-block scan: fails exactly on bad parameters; the accumulator is a prefix of the result, and any addition starts with a newline |
| LatexExtraction.FindMatchesRun | src/latexExtraction.ts:68-79 | from any valid position outside a block, the scan appends exactly what the reference machine emits from Outside over the lines from there up to, not including, the last line |
| LatexExtraction.CollectMatchesRun | src/latexExtraction.ts:46-57 | inside a block, the scan appends exactly what the machine emits from Inside over the remaining lines but the last |
| LatexExtraction.ScanIsRun | src/latexExtraction.ts:72-78 | scanning a note from line 0 with an empty accumulator is the machine run from Outside over every line but the last |
| LatexExtraction.LastLineNeverRead | src/latexExtraction.ts:72-74 | replacing the last line of a note never changes the scan's result |
| LatexExtraction.RunWithoutOpener | src/latexExtraction.ts:75-78 | lines with no opener among them emit nothing: lines outside blocks are dropped |
| LatexExtraction.NoOpenerDocument | src/latexExtraction.ts:72-78 | a note with no exact opener line before its last line contributes the empty string |
| LatexExtraction.RunInsideBlock | src/latexExtraction.ts:53-56 | inside a block, every line up to the first exact closer is kept as newline-prefixed text; an opener line there is content |
| LatexExtraction.RunFencedBlock | src/latexExtraction.ts:53-56 | an opener, content without a closer, then a closer contribute exactly the content; neither marker is included, and the scan resumes Outside so later blocks append to the same text |
| LatexExtraction.RunStartsWithNewline | src/latexExtraction.ts:56 | whatever the machine emits is empty or starts with a newline |
| LatexExtraction.DocumentStartsWithNewline | src/latexExtraction.ts:56 | a note's contribution is empty or starts with a newline |
| LatexExtraction.UnterminatedBlock | src/latexExtraction.ts:50-52 | opener, content without a closer, and any last line: the result is the content lines only, so the block stops at the penultimate line |
| LatexExtraction.ScanDocument | src/latexExtraction.ts:68-79 | the loop with an explicit Outside/Inside mode returns exactly what the recursive scan from line 0 with `""` returns |
| LatexExtraction.DocumentScan | src/latexExtraction.ts:92 | scanning a note's lines from `(0, "")` never fails and gives its contribution |
| LatexExtraction.SingleLineDocument | src/latexExtraction.ts:72-74 | a note without a line break contributes the empty string |
| LatexExtraction.ExtractEach | src/latexExtraction.ts:91-93 | one entry per note, in order, each that note's own contribution scanned from Outside with an empty accumulator |
| LatexExtraction.ProcessLatexFromFiles | src/latexExtraction.ts:87-94 | fails exactly on an empty list, with that error; otherwise returns the notes' contributions in input order joined by `"\n"` |
| LatexExtraction.ProcessLatexAppend | src/latexExtraction.ts:91-93 | no block state crosses notes: processing `a + b` is processing `a` and `b` apart and joining with `"\n"` |
| LatexExtraction.OpenedDocument | src/latexExtraction.ts:53-56 | a note whose first line opens a block that no line closes before the last line contributes every line in between |
| LatexExtraction.UnterminatedDocument | src/latexExtraction.ts:50-52 | the note `"```latex\nA\nB"` contributes `"\nA"` |
| LatexExtraction.UnterminatedBlockExample | src/latexExtraction.ts:87-94 | processing the single note `"```latex\nA\nB"` gives `"\nA"` |
| LatexExtraction.NestedOpenerExample | src/latexExtraction.ts:53-56 | the note `"```latex\nA\n```latex\nB\n```"` contributes `"\nA\n```latex\nB"` |
| LatexExtraction.ThreeNotesExample | src/latexExtraction.ts:87-94 | the three notes `"no code here"`, the nested-opener note and `""` give the join of `""`, `"\nA\n```latex\nB"` and `""` |
| LatexExtraction.ParseFrontMatter | src/latexExtraction.ts:152-167 | every failure of the front-matter parse is the one wrapped error |
| LatexExtraction.ParseFrontMatterAccepts | src/latexExtraction.ts:154-163 | the parse succeeds iff the front matter has at most one line break (at most two lines) and its first line contains `": "`; the output name is then the first line up to its first `": "`, and the output files are the text after it, up to any further `": "`, split on `", "` |
| LatexExtraction.ExtraFieldDropped | src/latexExtraction.ts:159-162 | text after a second `": "` is dropped: `"out: a: b"` declares output `out` with the single file `a` |
| LatexExtraction.TwoEntriesRejected | src/latexExtraction.ts:156-158 | a front matter with two or more line breaks is rejected with the wrapped error |
| LatexExtraction.ParseFrontMatterRoundTrip | src/latexExtraction.ts:159-163 | writing `name: f1, f2, ...` and a line break, then parsing it, gives back the name and the file list when they hold no separator characters |
| LatexExtraction.NotePath | src/latexExtraction.ts:108 | a note's path lies in `<folder>/<project>/`, ends in `.md`, and is five characters longer than the three names |
| LatexExtraction.NotePathDistinct | src/latexExtraction.ts:108 | within one project, two note names share a path iff they are equal, so each name reads its own note |
| LatexExtraction.ReadFile | src/latexExtraction.ts:104-113 | rejects an empty file or project name; otherwise returns the content at exactly `<folder>/<project>/<file>.md`, or fails naming the missing note |
| LatexExtraction.ReadEach | src/latexExtraction.ts:130-133 | succeeds iff every note reads, and then returns the contents in name order; its error is that of the first note in order that does not read |
| LatexExtraction.ReadFiles | src/latexExtraction.ts:123-134 | rejects an empty project name, then an empty list; succeeds iff every name is non-empty and present, and returns the contents in name order |
| LatexExtraction.GetFilesFromMain | src/latexExtraction.ts:144-168 | rejects an empty project name, then an empty main name; a missing main note is that unwrapped read error; otherwise the result is the parse of the note's front matter |
| LatexExtraction.MainName | src/latexExtraction.ts:26 | the main note's name is `compile/`, the project number, then `_main` |
| LatexExtraction.TexPath | src/latexExtraction.ts:183-188 | the output file lies in `<folder>/<project>/compile/` and ends in `.tex` |
| LatexExtraction.ExtractLatex | src/latexExtraction.ts:25-34 | an empty project name fails; a failure of the main-note step or of reading the declared notes is returned as it is, in that order; otherwise the output name is the declared one, the path is `<folder>/<project>/compile/<output>.tex`, the text is the read notes' contributions joined by `"\n"`, and the main note `compile/<number>_main` exists |
| LatexExtraction.ExtractLatexSucceeds | src/latexExtraction.ts:25-34 | when the main note parses and all declared notes exist, the written text is the declared notes' contributions, in declared order, joined by `"\n"` |
| ProjectIdentification.ProjectNumber | src/projectIdentification.ts:32-33 | the number is a prefix of the basename with no `_`, followed in the basename by `_` unless it is the whole basename |
| ProjectIdentification.GetProjectNumberFromCurrentFile | src/projectIdentification.ts:26-37 | no active note is that error, and the only one; otherwise the number of the note's basename |
| Host.AbstractFileAt | src/projectIdentification.ts:66 | the lookup finds a folder (with its children) iff the path is a folder, else a file iff the path is a file, else nothing |
| ProjectIdentification.GetProjectsFolder | src/projectIdentification.ts:65-74 | a missing entry and a non-folder entry are their own errors, checked in that order; a folder gives its children |
| ProjectIdentification.GetProjectsInFolder | src/projectIdentification.ts:79-84 | fails exactly when the folder has no children |
| ProjectIdentification.FilterByPrefix | src/projectIdentification.ts:91 | keeps exactly the names starting with the prefix, each as often as in the input |
| ProjectIdentification.FilterAppend | src/projectIdentification.ts:55 | filtering keeps input order: it distributes over concatenation |
| ProjectIdentification.FilterIdempotent | src/projectIdentification.ts:55 | filtering already-filtered names again changes nothing |
| ProjectIdentification.GetMatchingProjectName | src/projectIdentification.ts:90-99 | zero matches and several matches are their errors; succeeds iff exactly one child starts with `<number>_`; the name returned is that child, and every child with that prefix equals it |
| ProjectIdentification.GetProjectNameFromProjectNumber | src/projectIdentification.ts:46-60 | an empty number fails before any lookup; then missing folder, not a folder and no children, in that order; otherwise the unique match among the folder's children |
| ProjectIdentification.GetProjectNameAndNumber | src/projectIdentification.ts:15-19 | no active note is that error; otherwise succeeds iff the name lookup for the note's number does, with its error when it fails; on success `[number, name]` in that order, the number non-empty, and the name the lookup's unique match, starting with `<number>_` |
| ProjectIdentification.PrefixIsExact | src/projectIdentification.ts:91 | number `1` does not match a folder `10_x` |
| ProjectIdentification.MatchingExamples | src/projectIdentification.ts:92-98 | one match among two projects is returned; two matches are the ambiguity error |
| LatexCompiling.NormalizeSeparators | src/latexCompiling.ts:63 | same length, no backslash, every backslash replaced by `/` and every other character unchanged |
| LatexCompiling.NormalizeIdempotent | src/latexCompiling.ts:63 | normalising twice is normalising once |
| LatexCompiling.NormalizeKeepsSlashPaths | src/latexCompiling.ts:63 | a path without backslashes is unchanged |
| LatexCompiling.GetVaultPath | src/latexCompiling.ts:61-66 | no vault path exactly when there is no file-system adapter; otherwise the base path with every backslash replaced by `/` and every other character kept, so with no backslash and the same length |
| LatexCompiling.CompilePath | src/latexCompiling.ts:23 | the compile folder lies under `<vault>/`, ends in `/compile`, and is ten characters longer than the three names |
| LatexCompiling.TexFileInCompileFolder | src/latexCompiling.ts:23 | the command changes into exactly the folder the `.tex` file is written to: `<compile folder>/<output>.tex` is `<vault>/` followed by the `.tex` path |
| LatexCompiling.CompileCommand | src/latexCompiling.ts:17-33 | fails exactly when there is no vault path, with the unsupported-platform error, before any command is built |
| LatexCompiling.ChainJoin | src/latexCompiling.ts:26-30 | the typesetting passes joined by `" & "` are the single latex pass, or latex, bibtex, latex, latex |
| LatexCompiling.CommandIsJoinedStages | src/latexCompiling.ts:22-33 | the command is `cd <vault>/<folder>/<project>/compile`, the passes and `start <output>.pdf`, joined by `" & "`; six stages iff the mode is exactly `extended`, otherwise three |
| LatexCompiling.ThesisExample | src/latexCompiling.ts:26-31 | in extended mode the stages after `cd` use `thesis.tex` for latex, bare `thesis` for bibtex and `thesis.pdf` to open |

## Left out

- Running the command: `exec`, `childProcess.kill`, the `exit` handler and the `Notice` objects (src/latexCompiling.ts:35-53) are OS processes and UI concurrency.
- `createRequestTerminatingButton` (src/latexCompiling.ts:77-96) is DOM and private UI API.
- The unused `pluginPath` (src/latexCompiling.ts:22) has no effect on the result.
- `writeToTexFile` (src/latexExtraction.ts:179-189), including its mobile-version throw, is file I/O. Only its output path (`TexPath`) is modelled.
- `getFrontMatterInfo` is a host library call. It is the parameter `frontMatterOf` of `GetFilesFromMain` and `ExtractLatex`.
- `getFileByPath` with `cachedRead`, `getAbstractFileByPath` and `adapter.getBasePath` are host library calls. They become lookups in `Host.Vault` and the `basePath` parameter of `GetVaultPath`.
- A `cachedRead` that rejects after the note was found is not modelled: a present note always reads.
- `this.app` inside the module-level helpers is taken to be the running app.
- The scanner's recursion depth is not modelled. `collectLatex` and `findLatexBlocks` recurse once per line, and the JavaScript engine does not eliminate tail calls, so a note with very many lines can overflow the stack and make `processLatexFromFiles` throw a `RangeError`. The model's scan of every note succeeds, because Dafny's integers and recursion are unbounded.
- The error messages are not modelled. Each distinct error is an `Error` constructor carrying the names or numbers its message reports.
- The wrapped front-matter error (src/latexExtraction.ts:165-167) quotes the inner error it caught: the empty `Error` thrown for too many lines, or the `TypeError` of splitting a missing second field. `FrontMatterUnreadable` drops that inner error, so the model does not tell the two causes apart.
- The `catch` in `getProjectNumberFromCurrentFile` (src/projectIdentification.ts:34-36) is not modelled: `split` on a string cannot throw, so it is unreachable.
- The order in which the awaited promises settle is not modelled. Every failure in the modelled code is raised before the next step starts, so the result is the same.
- src/main.ts (plugin registration, the `runCompiler` orchestration, its catch-all notice and the settings merge) and src/latexCompilerSettingTab.ts (settings UI) are glue; only the default settings are kept.
- LatexExtraction.ParseFrontMatter: its own contract states only the single wrapped error. The accepted inputs, the output name and the output-file list are stated by `ParseFrontMatterAccepts`, with `TwoEntriesRejected`, `ExtraFieldDropped` and `ParseFrontMatterRoundTrip` as instances.
- LatexCompiling.CompileCommand: its own contract states only the error case. The successful command is stated by `CommandIsJoinedStages`.
