/**
 Release notes of cherry-picked pull requests: recognising fenced note blocks in a description and
 printing them in a normal form.

 The recogniser is the deterministic parser the regular expression amounts to.  `\s` and `\S` know
 five white space characters; `strings.TrimSpace` knows more, which matters for tokens.
 */
module ReleaseNotes {
  import opened Wrappers
  import opened Text

  datatype Kind = Breaking | Noteworthy | Feature | Bugfix | Doc | Other

  datatype Target = User | Operator | Developer | Dependency

  /** A recognised block; source, ref and author are empty when absent. */
  datatype Note = Note(kind: Kind, target: Target, source: string, ref: string, author: string, text: string)

  datatype Origin = Origin(prAuthor: string, org: string, repo: string, num: int)

  const FENCE := "```"

  function KindText(k: Kind): string {
    match k
    case Breaking => "breaking"
    case Noteworthy => "noteworthy"
    case Feature => "feature"
    case Bugfix => "bugfix"
    case Doc => "doc"
    case Other => "other"
  }

  function TargetText(t: Target): string {
    match t
    case User => "user"
    case Operator => "operator"
    case Developer => "developer"
    case Dependency => "dependency"
  }

  predicate RegexSpace(c: char) {
    c == ' ' || c == '\t' || c == '\n' || c == '\r' || c == '\U{000C}'
  }

  predicate TrimmedSpace(c: char) {
    || RegexSpace(c) || c == '\U{000B}' || c == '\U{0085}' || c == '\U{00A0}' || c == '\U{1680}'
    || '\U{2000}' <= c <= '\U{200A}' || c == '\U{2028}' || c == '\U{2029}' || c == '\U{202F}' || c == '\U{205F}' || c == '\U{3000}'
  }

  function TrimLeftSpace(s: string): (t: string)
    ensures |t| <= |s| && t == s[|s| - |t|..]
    ensures t != "" ==> !TrimmedSpace(t[0])
    ensures forall i :: 0 <= i < |s| - |t| ==> TrimmedSpace(s[i])
  {
    if s != "" && TrimmedSpace(s[0]) then TrimLeftSpace(s[1..]) else s
  }

  function TrimRightSpace(s: string): (t: string)
    ensures |t| <= |s| && t == s[..|t|]
    ensures t != "" ==> !TrimmedSpace(t[|t| - 1])
    ensures forall i :: |t| <= i < |s| ==> TrimmedSpace(s[i])
  {
    if s != "" && TrimmedSpace(s[|s| - 1]) then TrimRightSpace(s[..|s| - 1]) else s
  }

  function TrimSpace(s: string): string {
    TrimRightSpace(TrimLeftSpace(s))
  }

  // ---------- Recognising ----------

  function ParseKind(s: string): (r: Option<(Kind, string)>)
    ensures r.Some? ==> |r.value.1| < |s|
  {
    if KindText(Breaking) <= s then Some((Breaking, s[8..]))
    else if KindText(Noteworthy) <= s then Some((Noteworthy, s[10..]))
    else if KindText(Feature) <= s then Some((Feature, s[7..]))
    else if KindText(Bugfix) <= s then Some((Bugfix, s[6..]))
    else if KindText(Doc) <= s then Some((Doc, s[3..]))
    else if KindText(Other) <= s then Some((Other, s[5..]))
    else None
  }

  function ParseTarget(s: string): (r: Option<(Target, string)>)
    ensures r.Some? ==> |r.value.1| < |s|
  {
    if TargetText(User) <= s then Some((User, s[4..]))
    else if TargetText(Operator) <= s then Some((Operator, s[8..]))
    else if TargetText(Developer) <= s then Some((Developer, s[9..]))
    else if TargetText(Dependency) <= s then Some((Dependency, s[10..]))
    else None
  }

  /** The longest prefix without white space. */
  function TokenLength(s: string): (n: nat)
    ensures n <= |s|
    ensures forall i :: 0 <= i < n ==> !RegexSpace(s[i])
    ensures n < |s| ==> RegexSpace(s[n])
  {
    if s == "" || RegexSpace(s[0]) then 0 else 1 + TokenLength(s[1..])
  }

  /** The longest prefix of white space. */
  function SpaceLength(s: string): (n: nat)
    ensures n <= |s|
    ensures forall i :: 0 <= i < n ==> RegexSpace(s[i])
    ensures n < |s| ==> !RegexSpace(s[n])
  {
    if s == "" || !RegexSpace(s[0]) then 0 else 1 + SpaceLength(s[1..])
  }

  const HOST := "github.com/"

  predicate SourceToken(t: string) {
    HOST <= t && exists i :: |HOST| < i < |t| - 1 && t[i] == '/'
  }

  predicate RefToken(t: string) {
    |t| > 1 && t[0] == '#' && forall i :: 1 <= i < |t| ==> IsDigit(t[i])
  }

  predicate AuthorToken(t: string) {
    |t| > 1 && t[0] == '@'
  }

  /** An optional token of a header, preceded by one space: the token (or "") and the rest. */
  function OptionalToken(s: string, wanted: string -> bool): (r: (string, string))
    ensures |r.1| <= |s|
  {
    if s == "" || s[0] != ' ' then ("", s)
    else
      var n := 1 + TokenLength(s[1..]);
      if wanted(s[1..n]) then (s[1..n], s[n..]) else ("", s)
  }

  /** A non-empty line and what follows its newline. */
  function FirstNewline(s: string): (n: nat)
    ensures n <= |s|
    ensures forall i :: 0 <= i < n ==> s[i] != '\n'
    ensures n < |s| ==> s[n] == '\n'
  {
    if s == "" || s[0] == '\n' then 0 else 1 + FirstNewline(s[1..])
  }

  /** The fewest non-empty lines, at least one, that are followed by a fence; and what follows the fence. */
  function ParseText(s: string): (r: Option<(string, string)>)
    ensures r.Some? ==> |r.value.0| >= 2 && |r.value.0| + |FENCE| + |r.value.1| == |s|
    decreases |s|
  {
    var n := FirstNewline(s);
    if n == 0 || n == |s| then None
    else
      var rest := s[n + 1..];
      if FENCE <= rest then Some((s[..n + 1], rest[|FENCE|..]))
      else match ParseText(rest)
        case None => None
        case Some((text, after)) => Some((s[..n + 1] + text, after))
  }

  /** White space up to a newline, as late as possible among the first n characters, then the text. */
  function ParseBlock(s: string, n: nat): (r: Option<(string, string)>)
    requires n <= |s|
    ensures r.Some? ==> |r.value.1| < |s|
  {
    if n == 0 then None
    else if s[n - 1] == '\n' && ParseText(s[n..]).Some? then ParseText(s[n..])
    else ParseBlock(s, n - 1)
  }

  /** The fence, the kind and the target, and what follows them. */
  function ParseHead(s: string): (r: Option<(Kind, Target, string)>)
    ensures r.Some? ==> |r.value.2| < |s|
  {
    if !(FENCE <= s) then None
    else match ParseKind(s[|FENCE|..])
      case None => None
      case Some((kind, s1)) =>
        if s1 == "" || s1[0] != ' ' then None
        else match ParseTarget(s1[1..])
          case None => None
          case Some((target, s2)) => Some((kind, target, s2))
  }

  /** The optional source, reference and author, and what follows them. */
  function ParseTokens(s: string): (r: (string, string, string, string))
    ensures |r.3| <= |s|
  {
    var (source, s3) := OptionalToken(s, SourceToken);
    var (ref, s4) := OptionalToken(s3, RefToken);
    var (author, s5) := OptionalToken(s4, AuthorToken);
    (source, ref, author, s5)
  }

  /** A note block at the very beginning of s, and what follows it. */
  function ParseNote(s: string): (r: Option<(Note, string)>)
    ensures r.Some? ==> |r.value.1| < |s|
  {
    match ParseHead(s)
    case None => None
    case Some((kind, target, s2)) =>
      var (source, ref, author, s5) := ParseTokens(s2);
      match ParseBlock(s5, SpaceLength(s5))
      case None => None
      case Some((text, after)) => Some((Note(kind, target, source, ref, author, text), after))
  }

  /** All blocks from left to right, without overlaps. */
  function FindNotes(s: string): seq<Note>
    decreases |s|
  {
    if s == "" then []
    else match ParseNote(s)
      case Some((note, after)) => [note] + FindNotes(after)
      case None => FindNotes(s[1..])
  }

  // ---------- Printing ----------

  function Decimal(n: nat): string {
    if n < 10 then [('0' as int + n) as char] else Decimal(n / 10) + [('0' as int + n % 10) as char]
  }

  function Number(n: int): string {
    if n < 0 then "-" + Decimal(-n) else Decimal(n)
  }

  /** The note with its tokens and text as they are printed. */
  function Resolved(o: Origin, n: Note): Note {
    var source, ref, author := TrimSpace(n.source), TrimSpace(n.ref), TrimSpace(n.author);
    Note(n.kind, n.target,
         if source == "" || ref == "" then HOST + o.org + "/" + o.repo else source,
         if source == "" || ref == "" then "#" + Number(o.num) else ref,
         if author == "" then "@" + o.prAuthor else author,
         TrimSpace(n.text))
  }

  function Print(n: Note): string {
    FENCE + KindText(n.kind) + " " + TargetText(n.target) + " " + n.source + " " + n.ref + " " + n.author
    + "\n" + n.text + "\n" + FENCE
  }

  function PrintAll(o: Origin, notes: seq<Note>): string {
    if notes == [] then ""
    else if |notes| == 1 then Print(Resolved(o, notes[0]))
    else Print(Resolved(o, notes[0])) + "\n" + PrintAll(o, notes[1..])
  }

  method ReleaseNoteFromParentPR(o: Origin, body: string) returns (output: string)
    ensures output == PrintAll(o, FindNotes(body))
  {
    hide Print, Resolved, FindNotes;
    var notes := FindNotes(body);
    output := "";
    for i := 0 to |notes|
      invariant output + PrintAll(o, notes[i..]) == PrintAll(o, notes)
    {
      PrintFirst(o, notes[i..]);
      ghost var before := output;
      output := output + Print(Resolved(o, notes[i]));
      if i + 1 < |notes| {
        output := output + "\n";
      }
      assert notes[i..][1..] == notes[i + 1..];
    }
  }

  lemma PrintFirst(o: Origin, notes: seq<Note>)
    requires notes != []
    ensures PrintAll(o, notes)
         == Print(Resolved(o, notes[0])) + (if |notes| > 1 then "\n" else "") + PrintAll(o, notes[1..])
  {
    hide Print, Resolved;
  }
}
