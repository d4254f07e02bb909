/** The milestone-activator: recognises sections in files and comments or uncomments their lines. */
module MilestoneActivator {
  import opened Wrappers
  import opened Text

  const COMMENT := "# "
  const PROPERTY := "milestone:"

  function StartMarker(id: string): string {
    "# <-- /start: " + id + " -->"
  }

  function EndMarker(id: string): string {
    "# <-- /end: " + id + " -->"
  }

  datatype Mark = StartMark | EndMark | TextMark

  function MarkOf(line: string, id: string): Mark {
    if Trim(line) == StartMarker(id) then StartMark
    else if Trim(line) == EndMarker(id) then EndMark
    else TextMark
  }

  // ---------- Recognising sections ----------

  datatype FindError = SecondStart(line: nat) | EndWithoutStart(line: nat) | NotEnded

  lemma StartHasIndex(line: string, id: string)
    requires MarkOf(line, id) == StartMark
    ensures Index(line, StartMarker(id)) != -1
  {
    hide Trim, Index, StartMarker, EndMarker;
    TrimOccurs(line);
  }

  function Marks(lines: seq<string>, id: string): seq<Mark> {
    seq(|lines|, k requires 0 <= k < |lines| => MarkOf(lines[k], id))
  }

  /** Starts minus ends of sections among the first k lines. */
  function Balance(marks: seq<Mark>, k: nat): int
    requires k <= |marks|
  {
    if k == 0 then 0
    else Balance(marks, k - 1) + match marks[k - 1] case StartMark => 1 case EndMark => -1 case TextMark => 0
  }

  ghost predicate NeverNested(marks: seq<Mark>, k: nat)
    requires k <= |marks|
  {
    forall i :: 0 <= i <= k ==> 0 <= Balance(marks, i) <= 1
  }

  /** Sections are opened and closed alternately and the last one is closed. */
  ghost predicate WellBracketed(marks: seq<Mark>) {
    NeverNested(marks, |marks|) && Balance(marks, |marks|) == 0
  }

  /** What the outcome of a search through the given marks has to be. */
  ghost predicate Finds(marks: seq<Mark>, r: Result<bool, FindError>) {
    match r
    case Ok(found) => WellBracketed(marks) && (found <==> StartMark in marks)
    case Err(NotEnded) => NeverNested(marks, |marks|) && Balance(marks, |marks|) == 1
    case Err(SecondStart(n)) => 0 < n <= |marks| && NeverNested(marks, n - 1) && Balance(marks, n) == 2
    case Err(EndWithoutStart(n)) => 0 < n <= |marks| && NeverNested(marks, n - 1) && Balance(marks, n) == -1
  }

  /** Every file has exactly one possible outcome, so the search is sound and complete. */
  lemma FindsIsDeterministic(marks: seq<Mark>, r: Result<bool, FindError>, r': Result<bool, FindError>)
    requires Finds(marks, r) && Finds(marks, r')
    ensures r == r'
    ensures r.Ok? <==> WellBracketed(marks)
  {
    if r.Err? && !r.error.NotEnded? && r'.Err? && !r'.error.NotEnded? {
      FirstOffence(marks, r.error.line, r'.error.line);
    }
  }

  lemma FirstOffence(marks: seq<Mark>, m: nat, n: nat)
    requires 0 < m <= |marks| && NeverNested(marks, m - 1) && !(0 <= Balance(marks, m) <= 1)
    requires 0 < n <= |marks| && NeverNested(marks, n - 1) && !(0 <= Balance(marks, n) <= 1)
    ensures m == n
  {
  }

  method FindSectionsInFile(lines: seq<string>, id: string) returns (r: Result<bool, FindError>)
    ensures Finds(Marks(lines, id), r)
  {
    hide MarkOf;
    ghost var marks := Marks(lines, id);
    var startOfSection, endOfSection := 0, 0;
    for n := 0 to |lines|
      invariant NeverNested(marks, n)
      invariant Balance(marks, n) == startOfSection - endOfSection
      invariant 0 <= endOfSection
      invariant startOfSection > 0 <==> StartMark in marks[..n]
    {
      assert marks[..n + 1] == marks[..n] + [marks[n]];
      match MarkOf(lines[n], id)
      case StartMark =>
        startOfSection := startOfSection + 1;
        if startOfSection > endOfSection + 1 {
          return Err(SecondStart(n + 1));
        }
      case EndMark =>
        endOfSection := endOfSection + 1;
        if endOfSection > startOfSection {
          return Err(EndWithoutStart(n + 1));
        }
      case TextMark =>
    }
    assert marks[..|lines|] == marks;
    if startOfSection != endOfSection {
      return Err(NotEnded);
    }
    return Ok(startOfSection > 0);
  }

  // ---------- Transforming a line ----------

  /** A transformed line and whether it is reported as changed. */
  datatype Changed = Changed(line: string, changes: bool)

  predicate Commented(line: string) {
    COMMENT <= TrimLeft(line)
  }

  /** The line with everything after its last `milestone:` replaced. */
  function WithMilestone(line: string, milestone: string): string {
    var i := LastIndex(line, PROPERTY);
    if i == -1 then line else line[..i + |PROPERTY|] + " " + milestone
  }

  function Uncommented(line: string, offset: nat): string
    requires offset <= |line|
  {
    line[..offset] + TrimPrefix(line[offset..], COMMENT)
  }

  /** None stands for a slice index out of range. */
  function HandleActivateLine(line: string, milestone: string, offset: nat): Option<Changed> {
    if !Commented(line) then
      Some(Changed(WithMilestone(line, milestone), WithMilestone(line, milestone) != line))
    else if offset > |line| then None
    else Some(Changed(WithMilestone(Uncommented(line, offset), milestone), true))
  }

  function HandleDeactivateLine(line: string, offset: nat): Option<Changed> {
    if Commented(line) then Some(Changed(line, false))
    else if offset > |line| then None
    else Some(Changed(line[..offset] + COMMENT + line[offset..], true))
  }

  /** An empty milestone deactivates, any other one activates. */
  function HandleLine(line: string, milestone: string, offset: nat): Option<Changed> {
    if milestone == "" then HandleDeactivateLine(line, offset) else HandleActivateLine(line, milestone, offset)
  }

  // ---------- Transforming a file ----------

  datatype HandleError = InconsistentOffset | OutOfRange

  /** What the scanner remembers: whether it is inside a section, and the offset of the last start. */
  datatype Cursor = Cursor(inside: bool, offset: nat)

  function CursorAt(lines: seq<string>, id: string, k: nat): Cursor
    requires k <= |lines|
  {
    if k == 0 then Cursor(false, 0)
    else
      var c := CursorAt(lines, id, k - 1);
      match MarkOf(lines[k - 1], id)
      case StartMark => StartHasIndex(lines[k - 1], id); Cursor(true, Index(lines[k - 1], StartMarker(id)))
      case EndMark => c.(inside := false)
      case TextMark => c
  }

  /** Line k is a text line inside a section. */
  predicate InSection(lines: seq<string>, id: string, k: nat)
    requires k < |lines|
  {
    MarkOf(lines[k], id) == TextMark && CursorAt(lines, id, k).inside
  }

  /** What becomes of line k, or why processing stops there. */
  function LineResult(lines: seq<string>, id: string, milestone: string, k: nat): Result<Changed, HandleError>
    requires k < |lines|
  {
    var c := CursorAt(lines, id, k);
    if MarkOf(lines[k], id) == EndMark && Index(lines[k], EndMarker(id)) != c.offset then Err(InconsistentOffset)
    else if !InSection(lines, id, k) then Ok(Changed(lines[k], false))
    else match HandleLine(lines[k], milestone, c.offset)
      case Some(ch) => Ok(ch)
      case None => Err(OutOfRange)
  }

  /** The first k lines have results, these are the output, and the flag says whether one is reported changed. */
  ghost predicate Handled(lines: seq<string>, id: string, milestone: string, k: nat, out: seq<string>, changes: bool)
    requires k <= |lines|
  {
    && |out| == k
    && (forall i :: 0 <= i < k ==> LineResult(lines, id, milestone, i).Ok? && LineResult(lines, id, milestone, i).value.line == out[i])
    && (changes <==> exists i :: 0 <= i < k && LineResult(lines, id, milestone, i) == Ok(Changed(out[i], true)))
  }

  lemma HandledStep(lines: seq<string>, id: string, milestone: string, k: nat, out: seq<string>, changes: bool, ch: Changed)
    requires k < |lines| && Handled(lines, id, milestone, k, out, changes)
    requires LineResult(lines, id, milestone, k) == Ok(ch)
    ensures Handled(lines, id, milestone, k + 1, out + [ch.line], changes || ch.changes)
  {
    hide LineResult;
    var out', changes' := out + [ch.line], changes || ch.changes;
    if changes' {
      if ch.changes {
        assert LineResult(lines, id, milestone, k) == Ok(Changed(out'[k], true));
      } else {
        var i :| 0 <= i < k && LineResult(lines, id, milestone, i) == Ok(Changed(out[i], true));
        assert out'[i] == out[i];
      }
    }
  }

  /** The first line without a result determines the error. */
  ghost predicate FailsAt(lines: seq<string>, id: string, milestone: string, k: nat, e: HandleError)
    requires k < |lines|
  {
    && LineResult(lines, id, milestone, k) == Err(e)
    && forall i :: 0 <= i < k ==> LineResult(lines, id, milestone, i).Ok?
  }

  method HandleMilestoneSection(lines: seq<string>, id: string, milestone: string)
      returns (r: Result<(seq<string>, bool), HandleError>)
    ensures r.Ok? ==> Handled(lines, id, milestone, |lines|, r.value.0, r.value.1)
    ensures r.Err? ==> exists k :: 0 <= k < |lines| && FailsAt(lines, id, milestone, k, r.error)
  {
    hide MarkOf, HandleLine;
    var changes := false;
    var newLines: seq<string> := [];
    var changeLines := false;
    var offset: nat := 0;
    for n := 0 to |lines|
      invariant Cursor(changeLines, offset) == CursorAt(lines, id, n)
      invariant Handled(lines, id, milestone, n, newLines, changes)
    {
      var line := lines[n];
      var newLine, lineChanged := line, false;
      match MarkOf(line, id) {
        case StartMark =>
          StartHasIndex(line, id);
          offset := Index(line, StartMarker(id));
          changeLines := true;
        case EndMark =>
          if Index(line, EndMarker(id)) != offset {
            assert FailsAt(lines, id, milestone, n, InconsistentOffset);
            return Err(InconsistentOffset);
          }
          changeLines := false;
        case TextMark =>
          if changeLines {
            var handled := HandleLine(line, milestone, offset);
            if handled == None {
              assert FailsAt(lines, id, milestone, n, OutOfRange);
              return Err(OutOfRange);
            }
            newLine, lineChanged := handled.value.line, handled.value.changes;
          }
      }
      HandledStep(lines, id, milestone, n, newLines, changes, Changed(newLine, lineChanged));
      newLines := newLines + [newLine];
      changes := changes || lineChanged;
    }
    return Ok((newLines, changes));
  }
}
