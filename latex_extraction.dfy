/** Extraction of the LaTeX fenced blocks of a project's notes and
    their stitching into one `.tex` text (src/latexExtraction.ts). */
module LatexExtraction {
  import opened Results
  import opened Strings
  import opened Host

  /** The line that opens a LaTeX block and the line that closes it. */
  const Opener: string := "```latex"
  const Closer: string := "```"

  // ---------------------------------------------------------------------
  // The scanner, as written: two mutually tail-recursive functions over the
  // lines of one note, threading the position and the accumulated text.
  // ---------------------------------------------------------------------

  /** `collectLatex`: inside a block, append `"\n" + line` until a closing
      line; the last line of the text is never looked at. */
  function CollectLatex(text: seq<string>, pos: int, res: string): (r: Result<string>)
    ensures r.Ok? <==> 0 <= pos && |text| > 0
    ensures r.Err? ==> r.error == InvalidCollectParameter(pos, |text|)
    ensures r.Ok? ==> res <= r.value
    ensures r.Ok? && |r.value| > |res| ==> r.value[|res|] == '\n'
    decreases |text| - pos
  {
    if pos < 0 || |text| == 0 then Err(InvalidCollectParameter(pos, |text|))
    else if pos >= |text| - 1 then Ok(res)
    else if text[pos] == Closer then FindLatexBlocks(text, pos + 1, res)
    else CollectLatex(text, pos + 1, res + "\n" + text[pos])
  }

  /** `findLatexBlocks`: outside a block, skip lines until an opening line;
      the last line of the text is never looked at. */
  function FindLatexBlocks(text: seq<string>, pos: int, res: string): (r: Result<string>)
    ensures r.Ok? <==> 0 <= pos && |text| > 0
    ensures r.Err? ==> r.error == InvalidFindParameter(pos, |text|)
    ensures r.Ok? ==> res <= r.value
    ensures r.Ok? && |r.value| > |res| ==> r.value[|res|] == '\n'
    decreases |text| - pos
  {
    if pos < 0 || |text| == 0 then Err(InvalidFindParameter(pos, |text|))
    else if pos >= |text| - 1 then Ok(res)
    else if text[pos] == Opener then CollectLatex(text, pos + 1, res)
    else FindLatexBlocks(text, pos + 1, res)
  }

  // ---------------------------------------------------------------------
  // Reference definition: a two-state machine that reads lines one by one
  // and emits the text each line contributes.
  // ---------------------------------------------------------------------

  datatype Mode = Outside | Inside

  function Next(mode: Mode, line: string): Mode {
    match mode
    case Outside => if line == Opener then Inside else Outside
    case Inside => if line == Closer then Outside else Inside
  }

  /** Only a line read inside a block, other than the closer, is kept. */
  function Emitted(mode: Mode, line: string): string {
    if mode == Inside && line != Closer then "\n" + line else ""
  }

  /** The text emitted for `lines`, starting in `mode`. */
  function Run(mode: Mode, lines: seq<string>): string
    decreases |lines|
  {
    if |lines| == 0 then ""
    else Emitted(mode, lines[0]) + Run(Next(mode, lines[0]), lines[1..])
  }

  /** The lines the scanner reads: all but the last. */
  function Scanned(lines: seq<string>): seq<string> {
    if |lines| == 0 then [] else lines[..|lines| - 1]
  }

  /** Every line, each preceded by a newline. */
  function NewlinePrefixed(lines: seq<string>): string
    decreases |lines|
  {
    if |lines| == 0 then "" else "\n" + lines[0] + NewlinePrefixed(lines[1..])
  }

  /** What one note contributes: the machine run from Outside over its lines
      but the last. */
  function DocumentLatex(content: string): string {
    Run(Outside, Scanned(Split(content, "\n")))
  }

  // ---------------------------------------------------------------------
  // The scanner computes the machine.
  // ---------------------------------------------------------------------

  lemma {:induction false} FindMatchesRun(text: seq<string>, pos: int, res: string)
    requires 0 <= pos < |text|
    ensures FindLatexBlocks(text, pos, res) == Ok(res + Run(Outside, text[pos..|text| - 1]))
    decreases |text| - pos, 0
  {
    if pos < |text| - 1 {
      var lines := text[pos..|text| - 1];
      var tail := text[pos + 1..|text| - 1];
      assert lines[0] == text[pos] && lines[1..] == tail;
      assert Run(Outside, lines) == Emitted(Outside, text[pos]) + Run(Next(Outside, text[pos]), tail);
      assert Emitted(Outside, text[pos]) == "";
      if text[pos] == Opener {
        CollectMatchesRun(text, pos + 1, res);
        assert Run(Outside, lines) == Run(Inside, tail);
      } else {
        FindMatchesRun(text, pos + 1, res);
        assert Run(Outside, lines) == Run(Outside, tail);
      }
    } else {
      assert text[pos..|text| - 1] == [];
      assert res + "" == res;
    }
  }

  lemma {:induction false} CollectMatchesRun(text: seq<string>, pos: int, res: string)
    requires 0 <= pos < |text|
    ensures CollectLatex(text, pos, res) == Ok(res + Run(Inside, text[pos..|text| - 1]))
    decreases |text| - pos, 0
  {
    if pos < |text| - 1 {
      var lines := text[pos..|text| - 1];
      var tail := text[pos + 1..|text| - 1];
      assert lines[0] == text[pos] && lines[1..] == tail;
      assert Run(Inside, lines) == Emitted(Inside, text[pos]) + Run(Next(Inside, text[pos]), tail);
      if text[pos] == Closer {
        FindMatchesRun(text, pos + 1, res);
        assert Run(Inside, lines) == Run(Outside, tail);
      } else {
        var kept := "\n" + text[pos];
        ConcatAssociates(res, "\n", text[pos]);
        CollectMatchesRun(text, pos + 1, res + kept);
        assert Run(Inside, lines) == kept + Run(Inside, tail);
        ConcatAssociates(res, kept, Run(Inside, tail));
      }
    } else {
      assert text[pos..|text| - 1] == [];
      assert res + "" == res;
    }
  }

  /** Scanning a whole note from its first line with an empty accumulator
      is the machine run over all lines but the last. */
  lemma ScanIsRun(text: seq<string>)
    requires |text| > 0
    ensures FindLatexBlocks(text, 0, "") == Ok(Run(Outside, Scanned(text)))
  {
    FindMatchesRun(text, 0, "");
    assert "" + Run(Outside, Scanned(text)) == Run(Outside, Scanned(text));
  }

  /** The last line of a note is never inspected: replacing it changes nothing. */
  lemma LastLineNeverRead(text: seq<string>, last: string, other: string)
    ensures FindLatexBlocks(text + [last], 0, "") == FindLatexBlocks(text + [other], 0, "")
  {
    ScanIsRun(text + [last]);
    ScanIsRun(text + [other]);
    assert Scanned(text + [last]) == text == Scanned(text + [other]);
  }

  /** Lines outside every block are dropped: without an opener nothing is emitted. */
  lemma {:induction false} RunWithoutOpener(lines: seq<string>)
    requires Opener !in lines
    ensures Run(Outside, lines) == ""
    decreases |lines|
  {
    if |lines| > 0 {
      assert lines[0] in lines;
      assert forall i :: 0 <= i < |lines| - 1 ==> lines[1..][i] == lines[i + 1];
      RunWithoutOpener(lines[1..]);
    }
  }

  /** Inside a block every line up to the closer is kept, and only the exact
      closer ends the block (an opener line inside a block is content). */
  lemma {:induction false} RunInsideBlock(content: seq<string>, rest: seq<string>)
    requires Closer !in content
    ensures Run(Inside, content + rest) == NewlinePrefixed(content) + Run(Inside, rest)
    decreases |content|
  {
    if |content| > 0 {
      var line := content[0];
      var whole := content + rest;
      assert line != Closer by {
        assert content[0] in content;
      }
      assert Closer !in content[1..] by {
        assert forall i :: 0 <= i < |content| - 1 ==> content[1..][i] == content[i + 1];
      }
      assert whole[0] == line && whole[1..] == content[1..] + rest;
      assert Run(Inside, whole) == "\n" + line + Run(Inside, content[1..] + rest);
      RunInsideBlock(content[1..], rest);
      assert NewlinePrefixed(content) == "\n" + line + NewlinePrefixed(content[1..]);
      ConcatAssociates("\n" + line, NewlinePrefixed(content[1..]), Run(Inside, rest));
    } else {
      assert content + rest == rest;
    }
  }

  /** A fenced block contributes exactly its content lines, without the
      opener and the closer; afterwards the scan resumes outside and later
      blocks append to the same text. */
  lemma RunFencedBlock(content: seq<string>, rest: seq<string>)
    requires Closer !in content
    ensures Run(Outside, [Opener] + content + [Closer] + rest)
         == NewlinePrefixed(content) + Run(Outside, rest)
  {
    var lines := [Opener] + content + [Closer] + rest;
    assert lines[0] == Opener && lines[1..] == content + ([Closer] + rest);
    RunInsideBlock(content, [Closer] + rest);
    assert ([Closer] + rest)[1..] == rest;
  }

  /** What is emitted is empty or starts with a newline. */
  lemma {:induction false} RunStartsWithNewline(mode: Mode, lines: seq<string>)
    ensures Run(mode, lines) == "" || Run(mode, lines)[0] == '\n'
    decreases |lines|
  {
    if |lines| > 0 {
      var e := Emitted(mode, lines[0]);
      var r := Run(Next(mode, lines[0]), lines[1..]);
      assert Run(mode, lines) == e + r;
      RunStartsWithNewline(Next(mode, lines[0]), lines[1..]);
      if e == "" {
        assert e + r == r;
      } else {
        assert (e + r)[0] == e[0] == '\n';
      }
    }
  }

  /** An unterminated block extends only to the penultimate line. */
  lemma UnterminatedBlock(content: seq<string>, last: string)
    requires Closer !in content
    ensures FindLatexBlocks([Opener] + content + [last], 0, "") == Ok(NewlinePrefixed(content))
  {
    var text := [Opener] + content + [last];
    ScanIsRun(text);
    var lines := Scanned(text);
    assert lines == [Opener] + content;
    assert lines[0] == Opener;
    assert lines[1..] == content + [];
    RunInsideBlock(content, []);
    assert Run(Outside, lines) == Run(Inside, content + []);
    assert NewlinePrefixed(content) + "" == NewlinePrefixed(content);
  }

  // ---------------------------------------------------------------------
  // The same scan as an explicit two-state loop.
  // ---------------------------------------------------------------------

  /** Computes what `FindLatexBlocks(text, 0, "")` computes, with a loop
      over the line index instead of recursion. */
  method ScanDocument(text: seq<string>) returns (r: Result<string>)
    ensures r == FindLatexBlocks(text, 0, "")
  {
    if |text| == 0 {
      return Err(InvalidFindParameter(0, 0));
    }
    var mode := Outside;
    var pos := 0;
    var res := "";
    while pos < |text| - 1
      invariant 0 <= pos <= |text| - 1
      invariant FindLatexBlocks(text, 0, "")
             == if mode == Outside then FindLatexBlocks(text, pos, res) else CollectLatex(text, pos, res)
      decreases |text| - pos
    {
      var line := text[pos];
      if mode == Outside {
        if line == Opener {
          mode := Inside;
        }
      } else if line == Closer {
        mode := Outside;
      } else {
        res := res + "\n" + line;
      }
      pos := pos + 1;
    }
    r := Ok(res);
  }

  // ---------------------------------------------------------------------
  // Stitching the notes together.
  // ---------------------------------------------------------------------

  /** Scanning one note's text as `processLatexFromFiles` does. */
  lemma DocumentScan(content: string)
    ensures FindLatexBlocks(Split(content, "\n"), 0, "") == Ok(DocumentLatex(content))
  {
    ScanIsRun(Split(content, "\n"));
  }

  /** A note without a line break contributes nothing. */
  lemma SingleLineDocument(content: string)
    requires '\n' !in content
    ensures DocumentLatex(content) == ""
  {
    SplitJoin([content], "\n");
  }

  /** A note with no opener line before its last line contributes nothing. */
  lemma NoOpenerDocument(content: string)
    requires Opener !in Scanned(Split(content, "\n"))
    ensures DocumentLatex(content) == ""
  {
    RunWithoutOpener(Scanned(Split(content, "\n")));
  }

  /** A note's contribution is empty or starts with a newline. */
  lemma DocumentStartsWithNewline(content: string)
    ensures DocumentLatex(content) == "" || DocumentLatex(content)[0] == '\n'
  {
    RunStartsWithNewline(Outside, Scanned(Split(content, "\n")));
  }

  /** The contribution of each note, in order. */
  function Contributions(contents: seq<string>): seq<string> {
    seq(|contents|, i requires 0 <= i < |contents| => DocumentLatex(contents[i]))
  }

  /** `filesContents.map(...)`: every note scanned on its own, from Outside
      with an empty accumulator (the scan of a split text never fails). */
  function ExtractEach(contents: seq<string>): (parts: seq<string>)
    ensures |parts| == |contents|
    ensures forall i :: 0 <= i < |contents| ==> parts[i] == DocumentLatex(contents[i])
    decreases |contents|
  {
    if |contents| == 0 then []
    else
      DocumentScan(contents[0]);
      [FindLatexBlocks(Split(contents[0], "\n"), 0, "").value] + ExtractEach(contents[1..])
  }

  /** `processLatexFromFiles`: fails on no notes, otherwise the notes'
      contributions joined by newlines, one per note, in input order. */
  function ProcessLatexFromFiles(contents: seq<string>): (r: Result<string>)
    ensures r.Err? <==> |contents| == 0
    ensures r.Err? ==> r.error == NoFileContents
    ensures r.Ok? ==> r.value == Join(Contributions(contents), "\n")
  {
    if |contents| == 0 then Err(NoFileContents)
    else
      assert ExtractEach(contents) == Contributions(contents);
      Ok(Join(ExtractEach(contents), "\n"))
  }

  /** No block state crosses a note boundary: processing two lists of notes
      together is processing them apart and joining with a newline. */
  lemma ProcessLatexAppend(a: seq<string>, b: seq<string>)
    requires |a| > 0 && |b| > 0
    ensures ProcessLatexFromFiles(a + b)
         == Ok(ProcessLatexFromFiles(a).value + "\n" + ProcessLatexFromFiles(b).value)
  {
    assert Contributions(a + b) == Contributions(a) + Contributions(b);
    JoinAppend(Contributions(a), Contributions(b), "\n");
  }

  /** The lines of a note with an unterminated block. */
  lemma UnterminatedLines(note: string)
    requires note == "```latex\nA\nB"
    ensures Split(note, "\n") == [Opener, "A", "B"]
  {
    var lines := [Opener, "A", "B"];
    assert Join(lines, "\n") == note by {
      JoinCons(Opener, ["A", "B"], "\n");
      JoinCons("A", ["B"], "\n");
    }
    SplitJoin(lines, "\n");
  }

  /** One note: its contribution alone. */
  lemma ProcessOneNote(note: string)
    ensures ProcessLatexFromFiles([note]) == Ok(DocumentLatex(note))
  {
    assert Contributions([note]) == [DocumentLatex(note)];
  }

  /** Three notes: their contributions joined by newlines. */
  lemma ProcessThreeNotes(a: string, b: string, c: string)
    ensures ProcessLatexFromFiles([a, b, c])
         == Ok(Join([DocumentLatex(a), DocumentLatex(b), DocumentLatex(c)], "\n"))
  {
    assert Contributions([a, b, c]) == [DocumentLatex(a), DocumentLatex(b), DocumentLatex(c)];
  }

  /** A note with an unterminated block contributes its lines up to the
      penultimate one. */
  lemma UnterminatedDocument(note: string)
    requires note == "```latex\nA\nB"
    ensures DocumentLatex(note) == "\nA"
  {
    UnterminatedLines(note);
    assert [Opener, "A", "B"] == [Opener] + ["A"] + ["B"];
    OpenedDocument(note, ["A"], "B");
  }

  /** A note that opens a block on its first line and never closes it
      before its last line contributes every line in between. */
  lemma OpenedDocument(note: string, content: seq<string>, last: string)
    requires Closer !in content && Split(note, "\n") == [Opener] + content + [last]
    ensures DocumentLatex(note) == NewlinePrefixed(content)
  {
    DocumentScan(note);
    UnterminatedBlock(content, last);
  }

  /** `"```latex\nA\nB"` yields `"\nA"`: the trailing `B` is lost. */
  lemma UnterminatedBlockExample(note: string)
    requires note == "```latex\nA\nB"
    ensures ProcessLatexFromFiles([note]) == Ok("\nA")
  {
    ProcessOneNote(note);
    UnterminatedDocument(note);
  }

  /** The lines of a note holding an opener inside a block. */
  lemma NestedOpenerLines(note: string)
    requires note == "```latex\nA\n```latex\nB\n```"
    ensures Split(note, "\n") == [Opener, "A", Opener, "B", Closer]
  {
    var lines := [Opener, "A", Opener, "B", Closer];
    assert Join(lines, "\n") == note by {
      NestedOpenerJoin();
    }
    SplitJoin(lines, "\n");
  }

  lemma NestedOpenerJoin()
    ensures Join([Opener, "A", Opener, "B", Closer], "\n") == "```latex\nA\n```latex\nB\n```"
  {
    JoinFive(Opener, "A", Opener, "B", Closer, "\n");
    assert "```latex" + "\n" + "A" + "\n" + "```latex" + "\n" + "B" + "\n" + "```"
        == "```latex\nA\n```latex\nB\n```";
  }

  /** Five lines joined. */
  lemma JoinFive(a: string, b: string, c: string, d: string, e: string, sep: string)
    ensures Join([a, b, c, d, e], sep) == a + sep + b + sep + c + sep + d + sep + e
  {
    JoinCons(a, [b, c, d, e], sep);
    JoinCons(b, [c, d, e], sep);
    JoinCons(c, [d, e], sep);
    JoinCons(d, [e], sep);
    assert [a] + [b, c, d, e] == [a, b, c, d, e];
    assert [b] + [c, d, e] == [b, c, d, e];
    assert [c] + [d, e] == [c, d, e];
    assert [d] + [e] == [d, e];
  }

  /** A note holding an opener inside a block, closed on its last line: the
      inner opener is content. */
  lemma NestedOpenerExample(note: string)
    requires note == "```latex\nA\n```latex\nB\n```"
    ensures DocumentLatex(note) == "\nA\n```latex\nB"
  {
    var inner := ["A", Opener, "B"];
    NestedOpenerLines(note);
    assert [Opener, "A", Opener, "B", Closer] == [Opener] + inner + [Closer];
    OpenedDocument(note, inner, Closer);
    NestedOpenerContent();
  }

  lemma NestedOpenerContent()
    ensures NewlinePrefixed(["A", Opener, "B"]) == "\nA\n```latex\nB"
  {
    assert ["B"][1..] == [];
    assert NewlinePrefixed(["B"]) == "\nB" by {
      assert "\n" + "B" + "" == "\nB";
    }
    assert [Opener, "B"][1..] == ["B"];
    assert NewlinePrefixed([Opener, "B"]) == "\n```latex\nB" by {
      assert "\n" + Opener + "\nB" == "\n```latex\nB";
    }
    assert ["A", Opener, "B"][1..] == [Opener, "B"];
    assert "\n" + "A" + "\n```latex\nB" == "\nA\n```latex\nB";
  }

  /** An example of three notes: the second note's inner opener
      line is content, and its closer, being its last line, is never read;
      the other two notes contribute empty strings to the join. */
  lemma ThreeNotesExample(a: string, b: string, c: string)
    requires a == "no code here" && b == "```latex\nA\n```latex\nB\n```" && c == ""
    ensures ProcessLatexFromFiles([a, b, c]) == Ok(Join(["", "\nA\n```latex\nB", ""], "\n"))
  {
    ProcessThreeNotes(a, b, c);
    SingleLineDocument(a);
    NestedOpenerExample(b);
    SingleLineDocument(c);
  }

  // ---------------------------------------------------------------------
  // The main note's front matter.
  // ---------------------------------------------------------------------

  /** The output to compile: its name and the notes it includes. */
  datatype OutputSpecification = OutputSpecification(outputName: string, outputFiles: seq<string>)

  /** The parse inside `getFilesFromMain`'s `try`: at most two lines (the
      single declared output and the empty remainder after the final line
      break), the first line cut at its first `": "`, the part after it cut
      at `", "`. A missing `": "` makes `outputProcessing[1]` undefined and
      its `split` throw; every failure becomes the one wrapped error. */
  function ParseFrontMatter(frontMatter: string): (r: Result<OutputSpecification>)
    ensures r.Err? ==> r.error == FrontMatterUnreadable
  {
    var lines := Split(frontMatter, "\n");
    if |lines| > 2 then Err(FrontMatterUnreadable)
    else
      var fields := Split(lines[0], ": ");
      if |fields| < 2 then Err(FrontMatterUnreadable)
      else Ok(OutputSpecification(fields[0], Split(fields[1], ", ")))
  }

  /** The parse succeeds exactly when the front matter has at most one line
      break and its first line contains `": "`; the output name is then the
      first line up to the first `": "`, and the output files are the text
      after it, up to any further `": "`, cut at `", "`. */
  lemma ParseFrontMatterAccepts(frontMatter: string)
    ensures var first := Split(frontMatter, "\n")[0];
      var r := ParseFrontMatter(frontMatter);
      (r.Ok? <==> multiset(frontMatter)['\n'] <= 1 && Contains(first, ": ")) &&
      (r.Ok? ==> OccursAt(first, ": ", |r.value.outputName|) &&
                 r.value.outputName <= first &&
                 forall j :: 0 <= j < |r.value.outputName| ==> !OccursAt(first, ": ", j))
    ensures var first := Split(frontMatter, "\n")[0];
      var r := ParseFrontMatter(frontMatter);
      r.Ok? ==> |r.value.outputName| + 2 <= |first| &&
                r.value.outputFiles == Split(Split(first[|r.value.outputName| + 2..], ": ")[0], ", ")
  {
    SplitCharCount(frontMatter, '\n');
    SplitFirst(Split(frontMatter, "\n")[0], ": ");
  }

  /** Text after a second `": "` on the output line is dropped. */
  lemma ExtraFieldDropped(frontMatter: string)
    requires frontMatter == "out: a: b"
    ensures ParseFrontMatter(frontMatter) == Ok(OutputSpecification("out", ["a"]))
  {
    SplitJoin([frontMatter], "\n");
    assert Join(["out", "a", "b"], ": ") == frontMatter by {
      JoinCons("out", ["a", "b"], ": ");
      JoinCons("a", ["b"], ": ");
    }
    SplitJoin(["out", "a", "b"], ": ");
    SplitJoin(["a"], ", ");
  }

  /** More than one declared entry (two or more line breaks) is rejected. */
  lemma TwoEntriesRejected(a: string, b: string, c: string)
    ensures ParseFrontMatter(a + "\n" + b + "\n" + c) == Err(FrontMatterUnreadable)
  {
    var fm := a + "\n" + b + "\n" + c;
    SplitCharCount(fm, '\n');
    assert multiset(fm)['\n'] >= 2 by {
      assert multiset(fm) == multiset(a) + multiset("\n") + multiset(b) + multiset("\n") + multiset(c);
    }
  }

  /** A front matter of one line and its final line break splits into that
      line and an empty remainder. */
  lemma OneLineFrontMatter(line: string)
    requires '\n' !in line
    ensures Split(line + "\n", "\n") == [line, ""]
  {
    assert Join([line, ""], "\n") == line + "\n" by {
      JoinCons(line, [""], "\n");
      assert [line] + [""] == [line, ""];
      assert line + "\n" + "" == line + "\n";
    }
    SplitJoin([line, ""], "\n");
  }

  /** An output line cuts into its name and its file list. */
  lemma OutputLineFields(name: string, list: string)
    requires ':' !in name && ':' !in list
    ensures Split(name + ": " + list, ": ") == [name, list]
  {
    JoinCons(name, [list], ": ");
    SplitJoin([name, list], ": ");
  }

  /** Writing one output the way the plugin expects it and parsing it back
      gives the same output name and file list, when the name has no `:`,
      the files have no `,` or `:`, and neither has a line break. */
  lemma ParseFrontMatterRoundTrip(name: string, files: seq<string>)
    requires |files| > 0
    requires ':' !in name && '\n' !in name
    requires forall i :: 0 <= i < |files| ==> ',' !in files[i] && ':' !in files[i] && '\n' !in files[i]
    ensures ParseFrontMatter(name + ": " + Join(files, ", ") + "\n")
         == Ok(OutputSpecification(name, files))
  {
    var list := Join(files, ", ");
    var line := name + ": " + list;
    assert ':' !in list && '\n' !in list by {
      JoinNoChar(files, ", ", ':');
      JoinNoChar(files, ", ", '\n');
    }
    assert '\n' !in line;
    OneLineFrontMatter(line);
    OutputLineFields(name, list);
    SplitJoin(files, ", ");
  }

  // ---------------------------------------------------------------------
  // Reading notes from the vault.
  // ---------------------------------------------------------------------

  /** Where `readFile` looks a note up. */
  function NotePath(settings: Settings, projectName: string, fileName: string): (path: string)
    ensures settings.projectsFolder + "/" + projectName + "/" <= path
    ensures |path| == |settings.projectsFolder| + |projectName| + |fileName| + 5
    ensures path[|path| - 3..] == ".md"
  {
    settings.projectsFolder + "/" + projectName + "/" + fileName + ".md"
  }

  /** Within one project, different note names are looked up at different paths. */
  lemma NotePathDistinct(settings: Settings, projectName: string, a: string, b: string)
    ensures NotePath(settings, projectName, a) == NotePath(settings, projectName, b) <==> a == b
  {
    var dir := settings.projectsFolder + "/" + projectName + "/";
    assert NotePath(settings, projectName, a) == dir + a + ".md";
    assert NotePath(settings, projectName, b) == dir + b + ".md";
    if NotePath(settings, projectName, a) == NotePath(settings, projectName, b) {
      assert a == (dir + a + ".md")[|dir|..|dir| + |a|];
      assert b == (dir + b + ".md")[|dir|..|dir| + |b|];
    }
  }

  /** `readFile`: both names must be non-empty and the note must exist. */
  function ReadFile(vault: Vault, settings: Settings, fileName: string, projectName: string): (r: Result<string>)
    ensures fileName == "" || projectName == "" ==> r == Err(NoFileOrProjectName)
    ensures fileName != "" && projectName != "" ==>
      if NotePath(settings, projectName, fileName) in vault.files
      then r == Ok(vault.files[NotePath(settings, projectName, fileName)])
      else r == Err(DocumentNotFound(fileName))
  {
    if fileName == "" || projectName == "" then Err(NoFileOrProjectName)
    else
      var path := NotePath(settings, projectName, fileName);
      if path !in vault.files then Err(DocumentNotFound(fileName))
      else Ok(vault.files[path])
  }

  /** The `map` in `readFiles`: reads every note in order; the first note
      that cannot be read decides the error. */
  function ReadEach(vault: Vault, settings: Settings, fileNames: seq<string>, projectName: string): (r: Result<seq<string>>)
    ensures r.Ok? <==> forall i :: 0 <= i < |fileNames| ==> ReadFile(vault, settings, fileNames[i], projectName).Ok?
    ensures r.Ok? ==> (|r.value| == |fileNames| &&
      forall i :: 0 <= i < |fileNames| ==> r.value[i] == ReadFile(vault, settings, fileNames[i], projectName).value)
    ensures r.Err? ==> exists k :: (0 <= k < |fileNames| &&
      ReadFile(vault, settings, fileNames[k], projectName) == Err(r.error) &&
      forall i :: 0 <= i < k ==> ReadFile(vault, settings, fileNames[i], projectName).Ok?)
    decreases |fileNames|
  {
    if |fileNames| == 0 then Ok([])
    else
      var first := ReadFile(vault, settings, fileNames[0], projectName);
      if first.Err? then Err(first.error)
      else
        var rest := ReadEach(vault, settings, fileNames[1..], projectName);
        if rest.Err? then
          ReadEachShift(vault, settings, fileNames, projectName, rest.error);
          Err(rest.error)
        else Ok([first.value] + rest.value)
  }

  /** A first failure in the tail is a first failure of the whole list when
      the head reads. */
  lemma ReadEachShift(vault: Vault, settings: Settings, fileNames: seq<string>, projectName: string, e: Error)
    requires |fileNames| > 0 && ReadFile(vault, settings, fileNames[0], projectName).Ok?
    requires exists k :: (0 <= k < |fileNames[1..]| &&
      ReadFile(vault, settings, fileNames[1..][k], projectName) == Err(e) &&
      forall i :: 0 <= i < k ==> ReadFile(vault, settings, fileNames[1..][i], projectName).Ok?)
    ensures exists k :: (0 <= k < |fileNames| &&
      ReadFile(vault, settings, fileNames[k], projectName) == Err(e) &&
      forall i :: 0 <= i < k ==> ReadFile(vault, settings, fileNames[i], projectName).Ok?)
  {
    var k :| 0 <= k < |fileNames[1..]| &&
      ReadFile(vault, settings, fileNames[1..][k], projectName) == Err(e) &&
      forall i :: 0 <= i < k ==> ReadFile(vault, settings, fileNames[1..][i], projectName).Ok?;
    assert fileNames[k + 1] == fileNames[1..][k];
    forall i | 0 <= i < k + 1
      ensures ReadFile(vault, settings, fileNames[i], projectName).Ok?
    {
      if i > 0 {
        assert fileNames[i] == fileNames[1..][i - 1];
      }
    }
  }

  /** `readFiles`: a project name and at least one note are required; the
      contents come back in the order of the names. */
  function ReadFiles(vault: Vault, settings: Settings, fileNames: seq<string>, projectName: string): (r: Result<seq<string>>)
    ensures projectName == "" ==> r == Err(NoProjectName)
    ensures projectName != "" && |fileNames| == 0 ==> r == Err(NoFilesToOpen)
    ensures r.Ok? <==> projectName != "" && |fileNames| > 0 && forall i :: 0 <= i < |fileNames| ==>
      fileNames[i] != "" && NotePath(settings, projectName, fileNames[i]) in vault.files
    ensures r.Ok? ==> (|r.value| == |fileNames| &&
      forall i :: 0 <= i < |fileNames| ==> r.value[i] == vault.files[NotePath(settings, projectName, fileNames[i])])
  {
    if projectName == "" then Err(NoProjectName)
    else if |fileNames| == 0 then Err(NoFilesToOpen)
    else ReadEach(vault, settings, fileNames, projectName)
  }

  // ---------------------------------------------------------------------
  // The main note and the whole extraction.
  // ---------------------------------------------------------------------

  /** `getFilesFromMain`: checks both names, reads the main note (its errors
      are not wrapped) and parses its front matter, which the host's
      `getFrontMatterInfo` extracts: here the parameter `frontMatterOf`. */
  function GetFilesFromMain(vault: Vault, settings: Settings, frontMatterOf: string -> string,
                            mainName: string, projectName: string): (r: Result<OutputSpecification>)
    ensures projectName == "" ==> r == Err(NoProjectName)
    ensures projectName != "" && mainName == "" ==> r == Err(NoMainName)
    ensures projectName != "" && mainName != "" ==>
      if NotePath(settings, projectName, mainName) in vault.files
      then r == ParseFrontMatter(frontMatterOf(vault.files[NotePath(settings, projectName, mainName)]))
      else r == Err(DocumentNotFound(mainName))
  {
    if projectName == "" then Err(NoProjectName)
    else if mainName == "" then Err(NoMainName)
    else
      var mainContent :- ReadFile(vault, settings, mainName, projectName);
      ParseFrontMatter(frontMatterOf(mainContent))
  }

  /** The main note of project number `n` is `compile/<n>_main`. */
  function MainName(projectNumber: string): (name: string)
    ensures |name| == |projectNumber| + 13
    ensures name[..8] == "compile/" && name[8..|name| - 5] == projectNumber && name[|name| - 5..] == "_main"
  {
    "compile/" + projectNumber + "_main"
  }

  /** Where `writeToTexFile` puts the stitched text. */
  function TexPath(settings: Settings, projectName: string, outputName: string): (path: string)
    ensures settings.projectsFolder + "/" + projectName + "/compile/" <= path
    ensures |path| == |settings.projectsFolder| + |projectName| + |outputName| + 14
    ensures path[|path| - 4..] == ".tex"
  {
    settings.projectsFolder + "/" + projectName + "/compile/" + outputName + ".tex"
  }

  /** The `.tex` file `extractLatex` writes: its output name, path and text. */
  datatype TexFile = TexFile(outputName: string, path: string, latex: string)

  /** `extractLatex`, up to the write: main note, included notes, stitched text. */
  function ExtractLatex(vault: Vault, settings: Settings, frontMatterOf: string -> string,
                        projectName: string, projectNumber: string): (r: Result<TexFile>)
    ensures projectName == "" ==> r == Err(NoProjectName)
    ensures r.Ok? ==> NotePath(settings, projectName, MainName(projectNumber)) in vault.files
    ensures r.Ok? ==> r.value.path == TexPath(settings, projectName, r.value.outputName)
    ensures var main := GetFilesFromMain(vault, settings, frontMatterOf, MainName(projectNumber), projectName);
      if main.Err? then r == Err(main.error)
      else
        var read := ReadFiles(vault, settings, main.value.outputFiles, projectName);
        if read.Err? then r == Err(read.error)
        else r.Ok? && r.value.outputName == main.value.outputName &&
             r.value.latex == Join(Contributions(read.value), "\n")
  {
    var spec :- GetFilesFromMain(vault, settings, frontMatterOf, MainName(projectNumber), projectName);
    var contents :- ReadFiles(vault, settings, spec.outputFiles, projectName);
    // `contents` is not empty, so `processLatexFromFiles` cannot fail here
    Ok(TexFile(spec.outputName, TexPath(settings, projectName, spec.outputName), ProcessLatexFromFiles(contents).value))
  }

  /** When the main note declares an output whose notes all exist, the
      written text is the contributions of those notes, in declared order,
      joined by newlines. */
  lemma ExtractLatexSucceeds(vault: Vault, settings: Settings, frontMatterOf: string -> string,
                             projectName: string, projectNumber: string, spec: OutputSpecification)
    requires projectName != ""
    requires NotePath(settings, projectName, MainName(projectNumber)) in vault.files
    requires ParseFrontMatter(frontMatterOf(vault.files[NotePath(settings, projectName, MainName(projectNumber))])) == Ok(spec)
    requires |spec.outputFiles| > 0
    requires forall i :: 0 <= i < |spec.outputFiles| ==>
      spec.outputFiles[i] != "" && NotePath(settings, projectName, spec.outputFiles[i]) in vault.files
    ensures ExtractLatex(vault, settings, frontMatterOf, projectName, projectNumber)
         == Ok(TexFile(spec.outputName, TexPath(settings, projectName, spec.outputName),
                       Join(seq(|spec.outputFiles|, i requires 0 <= i < |spec.outputFiles| =>
                              DocumentLatex(vault.files[NotePath(settings, projectName, spec.outputFiles[i])])), "\n")))
  {
    var contents := ReadFiles(vault, settings, spec.outputFiles, projectName).value;
    assert Contributions(contents) == seq(|spec.outputFiles|, i requires 0 <= i < |spec.outputFiles| =>
      DocumentLatex(vault.files[NotePath(settings, projectName, spec.outputFiles[i])]));
  }
}
