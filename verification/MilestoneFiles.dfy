/** The milestone-activator on a directory of files. */
module MilestoneFiles {
  import opened Wrappers
  import opened Text
  import opened MilestoneActivator
  import opened MilestoneLaws

  // ---------- Text of a file ----------

  function DropCR(line: string): string {
    if line != "" && line[|line| - 1] == '\r' then line[..|line| - 1] else line
  }

  /** The lines a line scanner yields; `current` is the line being read. */
  function Scan(current: string, text: string): seq<string>
    requires '\n' !in current
    decreases |text|
  {
    if text == "" then if current == "" then [] else [DropCR(current)]
    else if text[0] == '\n' then [DropCR(current)] + Scan("", text[1..])
    else Scan(current + [text[0]], text[1..])
  }

  function SplitLines(text: string): seq<string> {
    Scan("", text)
  }

  function JoinLines(lines: seq<string>): string {
    if lines == [] then "" else lines[0] + "\n" + JoinLines(lines[1..])
  }

  /** Lines that survive being written and scanned again. */
  predicate Plain(line: string) {
    '\n' !in line && (line != "" ==> line[|line| - 1] != '\r')
  }

  lemma {:induction false} ScanLine(current: string, line: string, rest: string)
    requires '\n' !in current && '\n' !in line
    ensures Scan(current, line + "\n" + rest) == [DropCR(current + line)] + Scan("", rest)
    decreases |line|
  {
    var text := line + "\n" + rest;
    if line == "" {
      assert text[1..] == rest;
      assert current + line == current;
    } else {
      assert text[1..] == line[1..] + "\n" + rest;
      ScanLine(current + [line[0]], line[1..], rest);
      assert current + [line[0]] + line[1..] == current + line;
    }
  }

  /** What is written is what will be read. */
  lemma {:induction false} SplitJoin(lines: seq<string>)
    requires forall k :: 0 <= k < |lines| ==> Plain(lines[k])
    ensures SplitLines(JoinLines(lines)) == lines
  {
    if lines == [] {
    } else {
      assert Plain(lines[0]);
      ScanLine("", lines[0], JoinLines(lines[1..]));
      SplitJoin(lines[1..]);
      assert "" + lines[0] == lines[0];
    }
  }

  /** The last line counts whether it is terminated or not. */
  lemma {:induction false} ScanUnterminated(current: string, text: string)
    requires '\n' !in current && current + text != "" && (text != "" ==> text[|text| - 1] != '\n')
    ensures Scan(current, text) == Scan(current, text + "\n")
    decreases |text|
  {
    if text == "" {
      assert ("" + "\n")[1..] == "";
    } else {
      assert (text + "\n")[1..] == text[1..] + "\n";
      if text[0] == '\n' {
        ScanUnterminated("", text[1..]);
      } else {
        ScanUnterminated(current + [text[0]], text[1..]);
      }
    }
  }

  lemma UnterminatedLastLine(text: string)
    requires text != "" && text[|text| - 1] != '\n'
    ensures SplitLines(text) == SplitLines(text + "\n")
  {
    hide Scan;
    ScanUnterminated("", text);
  }

  /** One line more in front, with or without a carriage return before its newline, which is dropped. */
  lemma FirstLine(line: string, rest: string)
    requires '\n' !in line && (line != "" ==> line[|line| - 1] != '\r')
    ensures SplitLines(line + "\n" + rest) == [line] + SplitLines(rest)
    ensures SplitLines(line + "\r\n" + rest) == [line] + SplitLines(rest)
  {
    hide Scan;
    ScanLine("", line, rest);
    ScanLine("", line + "\r", rest);
    assert "" + line == line && "" + (line + "\r") == line + "\r";
    assert (line + "\r")[..|line|] == line;
    assert line + "\r" + "\n" + rest == line + "\r\n" + rest;
  }

  lemma {:induction false} ScanJoin(current: string, text: string)
    requires '\n' !in current && '\r' !in current && '\r' !in text
    requires if text == "" then current == "" else text[|text| - 1] == '\n'
    ensures JoinLines(Scan(current, text)) == current + text
    decreases |text|
  {
    if text == "" {
    } else {
      assert text == [text[0]] + text[1..];
      if text[0] == '\n' {
        ScanJoin("", text[1..]);
        assert JoinLines([current] + Scan("", text[1..])) == current + "\n" + text[1..] by {
          assert ([current] + Scan("", text[1..]))[1..] == Scan("", text[1..]);
        }
      } else {
        ScanJoin(current + [text[0]], text[1..]);
      }
    }
  }

  /** A text of terminated lines without carriage returns is written back as it was read. */
  lemma JoinSplit(text: string)
    requires '\r' !in text && (text != "" ==> text[|text| - 1] == '\n')
    ensures JoinLines(SplitLines(text)) == text
  {
    hide Scan, JoinLines;
    ScanJoin("", text);
  }

  // ---------- Files ----------

  datatype UpdateError = NoSuchFile | BadSections(find: FindError) | BadLine(handle: HandleError)

  /** One file has been processed: found or not, accepted or not, rewritten or not. */
  ghost predicate FileStep(text: Option<string>, id: string, milestone: string, text': Option<string>, r: Result<bool, UpdateError>) {
    if text == None then text' == None && r == Err(NoSuchFile)
    else
      var lines := SplitLines(text.value);
      match r
      case Err(NoSuchFile) => false
      case Err(BadSections(e)) => Finds(Marks(lines, id), Err(e)) && text' == text
      case Err(BadLine(e)) =>
        && Finds(Marks(lines, id), Ok(true)) && text' == text
        && exists k :: 0 <= k < |lines| && FailsAt(lines, id, milestone, k, e)
      case Ok(changed) =>
        || (Finds(Marks(lines, id), Ok(false)) && !changed && text' == text)
        || (&& Finds(Marks(lines, id), Ok(true))
            && exists out :: Handled(lines, id, milestone, |lines|, out, changed)
                          && text' == if changed then Some(JoinLines(out)) else text)
  }

  function Lookup(files: map<string, string>, path: string): Option<string> {
    if path in files then Some(files[path]) else None
  }

  /** What becomes of the plain line is plain again. */
  predicate KeepsPlain(line: string, milestone: string, offset: nat) {
    milestone != "" && (Commented(line) ==> offset <= |line|) ==>
      if LastIndex(Bare(line, offset), PROPERTY) == -1 then Plain(Bare(line, offset)) else Plain(milestone)
  }

  /** Files a run turns into something a further run accepts, reads back unchanged and leaves alone. */
  ghost predicate Tame(text: string, id: string, milestone: string) {
    var lines := SplitLines(text);
    && (forall k :: 0 <= k < |lines| ==> Plain(lines[k]))
    && NoneTurns(lines, id, milestone) && AllLinesSettle(lines, id, milestone)
    && forall k :: 0 <= k < |lines| && InSection(lines, id, k) ==> KeepsPlain(lines[k], milestone, CursorAt(lines, id, k).offset)
  }

  /** A run does nothing to the file. */
  ghost predicate Quiet(text: Option<string>, id: string, milestone: string) {
    FileStep(text, id, milestone, text, Ok(false))
  }

  lemma InsertedIsPlain(line: string, offset: nat)
    requires Plain(line) && offset <= |line|
    ensures Plain(Inserted(line, offset))
  {
    var d := Inserted(line, offset);
    assert offset < |line| ==> d[|d| - 1] == line[|line| - 1];
    assert offset == |line| ==> d[|d| - 1] == ' ';
  }

  lemma WrittenIsPlain(bare: string, i: nat, milestone: string)
    requires '\n' !in bare && i <= |bare| && Plain(milestone) && milestone != ""
    ensures Plain(bare[..i] + " " + milestone)
  {
    var out := bare[..i] + " " + milestone;
    assert out[|out| - 1] == milestone[|milestone| - 1];
  }

  lemma HandledLineIsPlain(line: string, milestone: string, offset: nat)
    requires Plain(line) && KeepsPlain(line, milestone, offset) && HandleLine(line, milestone, offset).Some?
    ensures Plain(HandleLine(line, milestone, offset).value.line)
  {
    hide Commented, LastIndex, Plain;
    if milestone == "" {
      if !Commented(line) {
        InsertedIsPlain(line, offset);
      }
    } else if LastIndex(Bare(line, offset), PROPERTY) != -1 {
      BareHasNoNewline(line, offset);
      WrittenIsPlain(Bare(line, offset), LastIndex(Bare(line, offset), PROPERTY) + |PROPERTY|, milestone);
    }
  }

  lemma BareHasNoNewline(line: string, offset: nat)
    requires Plain(line) && (Commented(line) ==> offset <= |line|)
    ensures '\n' !in Bare(line, offset)
  {
    hide Commented;
  }

  lemma OutputIsPlain(lines: seq<string>, id: string, milestone: string, out: seq<string>, changed: bool)
    requires Handled(lines, id, milestone, |lines|, out, changed)
    requires forall k :: 0 <= k < |lines| ==> Plain(lines[k])
    requires forall k :: 0 <= k < |lines| && InSection(lines, id, k) ==> KeepsPlain(lines[k], milestone, CursorAt(lines, id, k).offset)
    ensures forall k :: 0 <= k < |out| ==> Plain(out[k])
  {
    hide MarkOf, HandleLine, CursorAt, Plain, KeepsPlain;
    forall k | 0 <= k < |out|
      ensures Plain(out[k])
    {
      assert LineResult(lines, id, milestone, k).Ok?;
      if InSection(lines, id, k) {
        HandledLineIsPlain(lines[k], milestone, CursorAt(lines, id, k).offset);
      }
    }
  }

  /** One run makes a tame file quiet. */
  lemma RunMakesQuiet(text: string, id: string, milestone: string, text': Option<string>, changed: bool)
    requires Tame(text, id, milestone)
    requires FileStep(Some(text), id, milestone, text', Ok(changed))
    ensures Quiet(text', id, milestone)
  {
    hide MarkOf, HandleLine, Plain, SplitLines, JoinLines, Finds, Handled, NoneTurns, AllLinesSettle, Marks, KeepsPlain;
    var lines := SplitLines(text);
    if changed {
      var out :| Handled(lines, id, milestone, |lines|, out, changed) && text' == Some(JoinLines(out));
      SecondRunIsQuietIff(lines, id, milestone, out, changed);
      OutputIsPlain(lines, id, milestone, out, changed);
      SplitJoin(out);
    }
  }

  lemma HandledIsDeterministic(lines: seq<string>, id: string, milestone: string, out: seq<string>, c: bool,
                              out': seq<string>, c': bool)
    requires Handled(lines, id, milestone, |lines|, out, c) && Handled(lines, id, milestone, |lines|, out', c')
    ensures out == out' && c == c'
  {
    hide LineResult;
  }

  lemma QuietStays(text: Option<string>, id: string, milestone: string, text': Option<string>, r: Result<bool, UpdateError>)
    requires Quiet(text, id, milestone) && FileStep(text, id, milestone, text', r)
    ensures text' == text && r == Ok(false)
  {
    hide Marks, SplitLines, JoinLines, LineResult, Finds;
    var lines := SplitLines(text.value);
    var marks := Marks(lines, id);
    if Finds(marks, Ok(false)) {
      QuietlyUnfound(marks, r);
    } else {
      var out :| Handled(lines, id, milestone, |lines|, out, false);
      if r.Ok? {
        var out' :| Handled(lines, id, milestone, |lines|, out', r.value);
        HandledIsDeterministic(lines, id, milestone, out, false, out', r.value);
      } else if r.error.BadSections? {
        FindsIsDeterministic(marks, Ok(true), Err(r.error.find));
      }
    }
  }

  /** A file without sections has no other outcome. */
  lemma QuietlyUnfound(marks: seq<Mark>, r: Result<bool, UpdateError>)
    requires Finds(marks, Ok(false))
    ensures !Finds(marks, Ok(true))
    ensures r.Err? && r.error.BadSections? ==> !Finds(marks, Err(r.error.find))
  {
    if Finds(marks, Ok(true)) {
      FindsIsDeterministic(marks, Ok(false), Ok(true));
    }
    if r.Err? && r.error.BadSections? && Finds(marks, Err(r.error.find)) {
      FindsIsDeterministic(marks, Ok(false), Err(r.error.find));
    }
  }

  /** The file is processed and no other one changes. */
  ghost predicate FileUpdated(files: map<string, string>, path: string, id: string, milestone: string,
                              files': map<string, string>, r: Result<bool, UpdateError>) {
    && FileStep(Lookup(files, path), id, milestone, Lookup(files', path), r)
    && (forall p :: p != path ==> Lookup(files', p) == Lookup(files, p))
    && (r != Ok(true) ==> files' == files)
  }

  /** The next file is processed unless there was an error; the flag is raised if it was or if this file changed. */
  ghost predicate Continued(mid: map<string, string>, sofar: Result<bool, UpdateError>, path: string, id: string, milestone: string,
                            files': map<string, string>, r: Result<bool, UpdateError>) {
    if sofar.Err? then files' == mid && r == sofar
    else exists step ::
      && FileUpdated(mid, path, id, milestone, files', step)
      && r == if step.Err? then step else Ok(sofar.value || step.value)
  }

  /** The files are processed one after the other up to the first error, which is then the result. */
  ghost predicate Updated(files: map<string, string>, paths: seq<string>, id: string, milestone: string,
                          files': map<string, string>, r: Result<bool, UpdateError>)
    decreases |paths|
  {
    if paths == [] then files' == files && r == Ok(false)
    else
      var front, last := paths[..|paths| - 1], paths[|paths| - 1];
      exists mid, sofar :: Updated(files, front, id, milestone, mid, sofar) && Continued(mid, sofar, last, id, milestone, files', r)
  }

  lemma NextUpdated(files: map<string, string>, paths: seq<string>, i: nat, id: string, milestone: string,
                    mid: map<string, string>, sofar: Result<bool, UpdateError>, files': map<string, string>, r: Result<bool, UpdateError>)
    requires i < |paths| && Updated(files, paths[..i], id, milestone, mid, sofar)
    requires Continued(mid, sofar, paths[i], id, milestone, files', r)
    ensures Updated(files, paths[..i + 1], id, milestone, files', r)
  {
    hide Continued;
    assert paths[..i + 1][..i] == paths[..i];
  }

  /** After an error the remaining files are not looked at. */
  lemma {:induction false} StopsAtError(files: map<string, string>, paths: seq<string>, i: nat, id: string, milestone: string,
                                        files': map<string, string>, r: Result<bool, UpdateError>)
    requires i <= |paths| && Updated(files, paths[..i], id, milestone, files', r) && r.Err?
    ensures Updated(files, paths, id, milestone, files', r)
    decreases |paths| - i
  {
    hide Updated;
    if i == |paths| {
      assert paths[..i] == paths;
    } else {
      NextUpdated(files, paths, i, id, milestone, files', r, files', r);
      StopsAtError(files, paths, i + 1, id, milestone, files', r);
    }
  }

  class FileSystem {
    var files: map<string, string>

    constructor (files: map<string, string>)
      ensures this.files == files
    {
      this.files := files;
    }

    method UpdateFile(path: string, id: string, milestone: string) returns (r: Result<bool, UpdateError>)
      modifies this
      ensures FileUpdated(old(files), path, id, milestone, files, r)
    {
      hide Marks, Handled, FailsAt, SplitLines, JoinLines, Finds;
      if path !in files {
        return Err(NoSuchFile);
      }
      var lines := SplitLines(files[path]);
      var found := FindSectionsInFile(lines, id);
      if found.Err? {
        return Err(BadSections(found.error));
      }
      if !found.value {
        return Ok(false);
      }
      var handled := HandleMilestoneSection(lines, id, milestone);
      if handled.Err? {
        return Err(BadLine(handled.error));
      }
      var (out, changed) := handled.value;
      if changed {
        files := files[path := JoinLines(out)];
      }
      return Ok(changed);
    }

    /**
     Updates the files one after the other and stops at the first error.  If it completes on tame
     files they are all quiet; if it reports no change nothing was rewritten; and on quiet files it
     completes without touching anything.
     */
    method UpdateFiles(paths: seq<string>, id: string, milestone: string) returns (r: Result<bool, UpdateError>)
      modifies this
      ensures Updated(old(files), paths, id, milestone, files, r)
      ensures forall p :: p !in paths ==> Lookup(files, p) == old(Lookup(files, p))
      ensures r == Ok(false) ==> files == old(files)
      ensures r.Ok? && (forall p :: p in paths && p in old(files) ==> Tame(old(files)[p], id, milestone))
              ==> forall p :: p in paths ==> Quiet(Lookup(files, p), id, milestone)
      ensures (forall p :: p in paths ==> Quiet(old(Lookup(files, p)), id, milestone)) ==> r == Ok(false)
    {
      hide FileStep, Tame, Updated;
      var changes := false;
      NothingUpdated(files, paths, id, milestone);
      for i := 0 to |paths|
        invariant Updated(old(files), paths[..i], id, milestone, files, Ok(changes))
        invariant forall p :: p !in paths[..i] ==> Lookup(files, p) == old(Lookup(files, p))
        invariant !changes ==> files == old(files)
        invariant (forall p :: p in paths && p in old(files) ==> Tame(old(files)[p], id, milestone))
                  ==> forall p :: p in paths[..i] ==> Quiet(Lookup(files, p), id, milestone)
        invariant (forall p :: p in paths ==> Quiet(old(Lookup(files, p)), id, milestone)) ==> !changes
      {
        ghost var before := files;
        var path := paths[i];
        var updated := UpdateFile(path, id, milestone);
        NextUpdated(old(files), paths, i, id, milestone, before, Ok(changes), files,
                    if updated.Err? then updated else Ok(changes || updated.value));
        UpdateKeepsQuiet(before, files, path, id, milestone, updated);
        assert paths[..i + 1] == paths[..i] + [path];
        if updated.Err? {
          StopsAtError(old(files), paths, i + 1, id, milestone, files, updated);
          return Err(updated.error);
        }
        changes := changes || updated.value;
      }
      assert paths[..|paths|] == paths;
      return Ok(changes);
    }
  }

  lemma NothingUpdated(files: map<string, string>, paths: seq<string>, id: string, milestone: string)
    ensures Updated(files, paths[..0], id, milestone, files, Ok(false))
  {
  }

  /** Processing a file leaves every quiet file alone, whichever it is, and makes a tame one quiet. */
  lemma UpdateKeepsQuiet(files: map<string, string>, files': map<string, string>, path: string, id: string,
                         milestone: string, r: Result<bool, UpdateError>)
    requires FileUpdated(files, path, id, milestone, files', r)
    ensures forall p :: Quiet(Lookup(files, p), id, milestone) ==> Lookup(files', p) == Lookup(files, p)
    ensures Quiet(Lookup(files, path), id, milestone) ==> r == Ok(false)
    ensures r.Ok? ==> path in files
    ensures r.Ok? && path in files && Tame(files[path], id, milestone) ==> Quiet(Lookup(files', path), id, milestone)
  {
    hide Tame;
    if Quiet(Lookup(files, path), id, milestone) {
      QuietStays(Lookup(files, path), id, milestone, Lookup(files', path), r);
    }
    if r.Ok? && Tame(files[path], id, milestone) {
      RunMakesQuiet(files[path], id, milestone, Lookup(files', path), r.value);
    }
  }
}
