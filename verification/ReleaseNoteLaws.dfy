/** Release notes have a normal form: what has been printed is read back and printed unchanged. */
module ReleaseNoteLaws {
  import opened Wrappers
  import opened Text
  import opened ReleaseNotes

  // ---------- Note texts ----------

  /** No empty line, no newline at either end, and no fence at the beginning of a further line. */
  ghost predicate Inner(y: string) {
    && y != ""
    && forall i :: 0 <= i < |y| && y[i] == '\n' ==>
         0 < i && i + 1 < |y| && y[i + 1] != '\n' && !(FENCE <= y[i + 1..])
  }

  /** A line in front of a text that is inner and does not begin with a fence. */
  lemma InnerCons(line: string, y: string)
    requires |line| > 1 && line[|line| - 1] == '\n' && (forall i :: 0 <= i < |line| - 1 ==> line[i] != '\n')
    requires Inner(y) && !(FENCE <= y)
    ensures Inner(line + y)
  {
    var x := line + y;
    forall i | 0 <= i < |x| && x[i] == '\n'
      ensures 0 < i && i + 1 < |x| && x[i + 1] != '\n' && !(FENCE <= x[i + 1..])
    {
      assert x[i + 1..] == y[i + 1 - |line|..];
      if i >= |line| {
        assert y[i - |line|] == '\n' && y[i - |line| + 1..] == y[i + 1 - |line|..];
      } else {
        assert y[0] != '\n' && y[0..] == y;
      }
    }
  }

  /** What follows a newline of an inner text is inner again. */
  lemma InnerTail(y: string, n: nat)
    requires Inner(y) && n < |y| && y[n] == '\n'
    ensures Inner(y[n + 1..]) && !(FENCE <= y[n + 1..])
  {
    var y' := y[n + 1..];
    forall i | 0 <= i < |y'| && y'[i] == '\n'
      ensures 0 < i && i + 1 < |y'| && y'[i + 1] != '\n' && !(FENCE <= y'[i + 1..])
    {
      assert y[n + 1 + i] == '\n' && y[n + 1 + i + 1..] == y'[i + 1..];
    }
  }

  /** A parsed text is its first line, followed by the text parsed from the rest unless a fence comes next. */
  lemma ParsedTextStep(s: string)
    requires ParseText(s).Some?
    ensures var n := FirstNewline(s);
            && 0 < n < |s|
            && (FENCE <= s[n + 1..] ==> ParseText(s).value == (s[..n + 1], s[n + 1..][|FENCE|..]))
            && (!(FENCE <= s[n + 1..]) ==>
                  && ParseText(s[n + 1..]).Some?
                  && ParseText(s).value == (s[..n + 1] + ParseText(s[n + 1..]).value.0, ParseText(s[n + 1..]).value.1))
  {
    hide FirstNewline;
  }

  lemma Cut(s: string, n: nat)
    requires n <= |s|
    ensures s == s[..n] + s[n..]
  {
  }

  lemma Glue(a: string, b: string, c: string, d: string)
    ensures a + (b + c + d) == a + b + c + d
    ensures a + (c + d) == a + c + d
  {
  }

  lemma {:induction false} ParsedTextSplits(s: string)
    requires ParseText(s).Some?
    ensures var r := ParseText(s).value; s == r.0 + FENCE + r.1
    decreases |s|
  {
    ParsedTextStep(s);
    hide FirstNewline, ParseText;
    var n := FirstNewline(s);
    var rest := s[n + 1..];
    Cut(s, n + 1);
    if FENCE <= rest {
      Cut(rest, |FENCE|);
      Glue(s[..n + 1], [], FENCE, rest[|FENCE|..]);
    } else {
      ParsedTextSplits(rest);
      var r := ParseText(rest).value;
      Glue(s[..n + 1], r.0, FENCE, r.1);
    }
  }

  lemma {:induction false} ParsedTextIsInner(s: string)
    requires ParseText(s).Some?
    ensures var t := ParseText(s).value.0; t[|t| - 1] == '\n' && Inner(t[..|t| - 1])
    decreases |s|
  {
    hide Inner, ParseText, FirstNewline;
    ParsedTextStep(s);
    var n := FirstNewline(s);
    var rest := s[n + 1..];
    var line := s[..n + 1];
    var t := ParseText(s).value.0;
    if FENCE <= rest {
      SingleLineIsInner(s[..n]);
      assert t[..|t| - 1] == s[..n];
    } else {
      ParsedTextIsInner(rest);
      ParsedTextSplits(rest);
      var t' := ParseText(rest).value.0;
      var x' := t'[..|t'| - 1];
      assert x' <= rest;
      InnerCons(line, x');
      assert t[..|t| - 1] == line + x';
    }
  }

  lemma SingleLineIsInner(line: string)
    requires line != "" && '\n' !in line
    ensures Inner(line)
  {
  }

  lemma NoFenceAhead(y: string, tail: string)
    requires !(FENCE <= y)
    ensures !(FENCE <= y + "\n" + tail)
  {
    var s := y + "\n" + tail;
    assert s[|y|] == '\n';
    assert y <= s;
  }

  lemma ParseTextCons(line: string, rest: string)
    requires line != "" && '\n' !in line
    ensures ParseText(line + "\n" + rest)
         == if FENCE <= rest then Some((line + "\n", rest[|FENCE|..]))
            else match ParseText(rest)
                 case None => None
                 case Some((text, after)) => Some((line + "\n" + text, after))
  {
    hide FirstNewline;
    var s := line + "\n" + rest;
    FirstNewlineIs(s, |line|);
    assert s[|line| + 1..] == rest && s[..|line| + 1] == line + "\n";
  }

  lemma {:induction false} InnerTextIsParsed(y: string, tail: string)
    requires Inner(y)
    ensures ParseText(y + "\n" + (FENCE + tail)) == Some((y + "\n", tail))
    decreases |y|
  {
    hide Inner, ParseText, FirstNewline;
    var n := FirstNewline(y);
    InnerStart(y);
    if n == |y| {
      ParseTextCons(y, FENCE + tail);
      assert (FENCE + tail)[|FENCE|..] == tail;
    } else {
      var y' := y[n + 1..];
      InnerTail(y, n);
      NoFenceAhead(y', FENCE + tail);
      InnerTextIsParsed(y', tail);
      ParseTextCons(y[..n], y' + "\n" + (FENCE + tail));
      assert y == y[..n] + "\n" + y';
      assert y + "\n" + (FENCE + tail) == y[..n] + "\n" + (y' + "\n" + (FENCE + tail));
      assert y[..n] + "\n" + (y' + "\n") == y + "\n";
    }
  }

  lemma InnerStart(y: string)
    requires Inner(y)
    ensures y != "" && y[0] != '\n'
  {
  }

  lemma {:induction false} FirstNewlineIs(s: string, n: nat)
    requires n < |s| && s[n] == '\n' && forall i :: 0 <= i < n ==> s[i] != '\n'
    ensures FirstNewline(s) == n
  {
    if n == 0 {
    } else {
      FirstNewlineIs(s[1..], n - 1);
    }
  }

  lemma TrimSpaceIsSlice(s: string) returns (a: nat)
    ensures a + |TrimSpace(s)| <= |s| && TrimSpace(s) == s[a..a + |TrimSpace(s)|]
    ensures TrimSpace(s) != "" ==> !TrimmedSpace(TrimSpace(s)[0]) && !TrimmedSpace(TrimSpace(s)[|TrimSpace(s)| - 1])
  {
    hide TrimLeftSpace, TrimRightSpace;
    a := |s| - |TrimLeftSpace(s)|;
    assert TrimRightSpace(TrimLeftSpace(s)) == TrimLeftSpace(s)[..|TrimSpace(s)|];
    assert TrimLeftSpace(s)[..|TrimSpace(s)|] == s[a..a + |TrimSpace(s)|];
  }

  lemma TrimmedTextIsInner(t: string)
    requires |t| > 0 && t[|t| - 1] == '\n' && Inner(t[..|t| - 1]) && TrimSpace(t) != ""
    ensures Inner(TrimSpace(t))
  {
    hide TrimSpace;
    var a := TrimSpaceIsSlice(t);
    var x, y := t[..|t| - 1], TrimSpace(t);
    assert a + |y| <= |x|;
    forall i | 0 <= i < |y| && y[i] == '\n'
      ensures 0 < i && i + 1 < |y| && y[i + 1] != '\n' && !(FENCE <= y[i + 1..])
    {
      assert y[i] == x[a + i];
      assert !(FENCE <= x[a + i + 1..]);
      assert y[i + 1..] <= x[a + i + 1..];
    }
  }

  /** Trimming changes nothing between two characters that are not white space. */
  lemma TrimSpaceOf(s: string)
    requires s == "" || (!TrimmedSpace(s[0]) && !TrimmedSpace(s[|s| - 1]))
    ensures TrimSpace(s) == s
  {
  }

  lemma TrimSpaceOfLine(s: string)
    requires s != "" && !TrimmedSpace(s[0]) && !TrimmedSpace(s[|s| - 1])
    ensures TrimSpace(s + "\n") == s
  {
    assert TrimLeftSpace(s + "\n") == s + "\n";
    assert (s + "\n")[..|s|] == s;
    assert TrimRightSpace(s) == s;
  }

  // ---------- Headers ----------

  ghost predicate NoSpace(s: string) {
    forall i :: 0 <= i < |s| ==> !TrimmedSpace(s[i])
  }

  ghost predicate Unbroken(s: string) {
    forall i :: 0 <= i < |s| ==> !RegexSpace(s[i])
  }

  lemma {:induction false} TokenLengthOf(tok: string, rest: string)
    requires Unbroken(tok) && rest != "" && RegexSpace(rest[0])
    ensures TokenLength(tok + rest) == |tok|
  {
    if tok == "" {
      assert tok + rest == rest;
    } else {
      assert (tok + rest)[1..] == tok[1..] + rest;
      TokenLengthOf(tok[1..], rest);
    }
  }

  lemma TokenIsRead(tok: string, rest: string, wanted: string -> bool)
    requires Unbroken(tok) && rest != "" && RegexSpace(rest[0]) && wanted(tok)
    ensures OptionalToken(" " + tok + rest, wanted) == (tok, rest)
  {
    var s := " " + tok + rest;
    assert s[1..] == tok + rest;
    TokenLengthOf(tok, rest);
    assert s[1..1 + |tok|] == tok && s[1 + |tok|..] == rest;
  }

  lemma KindIsRead(k: Kind, rest: string)
    ensures ParseKind(KindText(k) + rest) == Some((k, rest))
  {
    var s := KindText(k) + rest;
    assert s[|KindText(k)|..] == rest;
    assert KindText(k) <= s;
    assert s[0] == KindText(k)[0] && s[1] == KindText(k)[1];
  }

  lemma TargetIsRead(t: Target, rest: string)
    ensures ParseTarget(TargetText(t) + rest) == Some((t, rest))
  {
    var s := TargetText(t) + rest;
    assert s[|TargetText(t)|..] == rest;
    assert TargetText(t) <= s;
    assert s[0] == TargetText(t)[0] && s[2] == TargetText(t)[2];
  }

  lemma HeadIsRead(k: Kind, t: Target, rest: string)
    ensures ParseHead(FENCE + (KindText(k) + (" " + (TargetText(t) + rest)))) == Some((k, t, rest))
  {
    hide ParseKind, ParseTarget, KindText, TargetText;
    var s1 := " " + (TargetText(t) + rest);
    var s := FENCE + (KindText(k) + s1);
    assert s[|FENCE|..] == KindText(k) + s1;
    KindIsRead(k, s1);
    assert s1[1..] == TargetText(t) + rest;
    TargetIsRead(t, rest);
  }

  lemma TokensAreRead(source: string, ref: string, author: string, rest: string)
    requires NoSpace(source) && NoSpace(ref) && NoSpace(author)
    requires SourceToken(source) && RefToken(ref) && AuthorToken(author)
    requires rest != "" && RegexSpace(rest[0])
    ensures ParseTokens(" " + source + (" " + ref + (" " + author + rest))) == (source, ref, author, rest)
  {
    hide SourceToken, RefToken, AuthorToken, OptionalToken;
    TokenIsRead(source, " " + ref + (" " + author + rest), SourceToken);
    TokenIsRead(ref, " " + author + rest, RefToken);
    TokenIsRead(author, rest, AuthorToken);
  }

  lemma BlockIsRead(y: string, tail: string)
    requires Inner(y) && !RegexSpace(y[0])
    ensures var s := "\n" + (y + "\n" + (FENCE + tail)); ParseBlock(s, SpaceLength(s)) == Some((y + "\n", tail))
  {
    hide ParseText;
    var s := "\n" + (y + "\n" + (FENCE + tail));
    InnerTextIsParsed(y, tail);
    assert s[1..] == y + "\n" + (FENCE + tail);
    assert s[1] == y[0];
    assert SpaceLength(s) == 1;
  }

  /** Notes that are read back exactly as they were printed. */
  ghost predicate Printable(n: Note) {
    && SourceToken(n.source) && RefToken(n.ref) && AuthorToken(n.author)
    && NoSpace(n.source) && NoSpace(n.ref) && NoSpace(n.author)
    && Inner(n.text) && !TrimmedSpace(n.text[0]) && !TrimmedSpace(n.text[|n.text| - 1])
  }

  lemma PrintedShape(n: Note, tail: string)
    ensures var block := "\n" + (n.text + "\n" + (FENCE + tail));
            var tokens := " " + n.source + (" " + n.ref + (" " + n.author + block));
            Print(n) + tail == FENCE + (KindText(n.kind) + (" " + (TargetText(n.target) + tokens)))
  {
    hide KindText, TargetText;
  }

  lemma PrintedNoteIsRead(n: Note, tail: string)
    requires Printable(n)
    ensures ParseNote(Print(n) + tail) == Some((n.(text := n.text + "\n"), tail))
  {
    hide ParseHead, ParseTokens, ParseBlock, SpaceLength, KindText, TargetText, SourceToken, RefToken, AuthorToken, NoSpace, Inner;
    var block := "\n" + (n.text + "\n" + (FENCE + tail));
    var tokens := " " + n.source + (" " + n.ref + (" " + n.author + block));
    var s := FENCE + (KindText(n.kind) + (" " + (TargetText(n.target) + tokens)));
    PrintedShape(n, tail);
    hide Print;
    HeadIsRead(n.kind, n.target, tokens);
    TokensAreRead(n.source, n.ref, n.author, block);
    BlockIsRead(n.text, tail);
  }

  // ---------- What was recognised ----------

  /** The parts of a note have the shape that the regular expression asks for. */
  ghost predicate Shaped(n: Note) {
    && (n.source == "" || SourceToken(n.source))
    && (n.ref == "" || RefToken(n.ref))
    && (n.author == "" || AuthorToken(n.author))
    && |n.text| > 0 && n.text[|n.text| - 1] == '\n' && Inner(n.text[..|n.text| - 1])
  }

  /** No part of the header holds white space that the expression lets pass but that would be trimmed. */
  ghost predicate Tidy(n: Note) {
    NoSpace(n.source) && NoSpace(n.ref) && NoSpace(n.author)
  }

  ghost predicate Recognised(n: Note) {
    Shaped(n) && Tidy(n)
  }

  lemma {:induction false} BlockIsInner(s: string, n: nat)
    requires n <= |s| && ParseBlock(s, n).Some?
    ensures var r := ParseBlock(s, n).value;
            |r.0| > 0 && r.0[|r.0| - 1] == '\n' && Inner(r.0[..|r.0| - 1]) && |r.1| < |s| && r.1 == s[|s| - |r.1|..]
  {
    hide ParseText;
    if s[n - 1] == '\n' && ParseText(s[n..]).Some? {
      ParsedTextIsInner(s[n..]);
      ParsedTextSplits(s[n..]);
    } else {
      BlockIsInner(s, n - 1);
    }
  }

  lemma NoteIsShaped(s: string)
    requires ParseNote(s).Some?
    ensures Shaped(ParseNote(s).value.0)
  {
    hide ParseHead, ParseBlock, SpaceLength, SourceToken, RefToken, AuthorToken, Inner, TokenLength;
    var s5 := ParseTokens(ParseHead(s).value.2).3;
    BlockIsInner(s5, SpaceLength(s5));
  }

  /** Every note found in a body has well-shaped parts and a text of non-empty lines without an inner fence. */
  lemma {:induction false} NotesAreShaped(s: string)
    ensures forall k :: 0 <= k < |FindNotes(s)| ==> Shaped(FindNotes(s)[k])
    decreases |s|
  {
    hide ParseNote, Shaped;
    if s == "" {
    } else if ParseNote(s).Some? {
      NoteIsShaped(s);
      NotesAreShaped(ParseNote(s).value.1);
    } else {
      NotesAreShaped(s[1..]);
    }
  }

  // ---------- Resolved notes ----------

  lemma {:induction false} DecimalHasDigits(n: nat)
    ensures Decimal(n) != "" && forall i :: 0 <= i < |Decimal(n)| ==> IsDigit(Decimal(n)[i])
  {
    if n < 10 {
    } else {
      DecimalHasDigits(n / 10);
    }
  }

  /** Names as GitHub has them: not empty and without white space. */
  ghost predicate Named(o: Origin) {
    && o.prAuthor != "" && o.org != "" && o.repo != "" && o.num >= 0
    && NoSpace(o.prAuthor) && NoSpace(o.org) && NoSpace(o.repo)
  }

  lemma DefaultSourceIsToken(o: Origin)
    requires Named(o)
    ensures var t := HOST + o.org + "/" + o.repo; SourceToken(t) && NoSpace(t)
  {
    var t := HOST + o.org + "/" + o.repo;
    assert t[|HOST| + |o.org|] == '/';
    forall i | 0 <= i < |t|
      ensures !TrimmedSpace(t[i])
    {
      if i < |HOST| {
        assert t[i] == HOST[i];
      } else if i < |HOST| + |o.org| {
        assert t[i] == o.org[i - |HOST|];
      } else if i > |HOST| + |o.org| {
        assert t[i] == o.repo[i - |HOST| - |o.org| - 1];
      }
    }
  }

  lemma DefaultRefIsToken(o: Origin)
    requires Named(o)
    ensures var t := "#" + Number(o.num); RefToken(t) && NoSpace(t)
  {
    hide Decimal;
    DecimalHasDigits(o.num);
    var t := "#" + Number(o.num);
    forall i | 1 <= i < |t|
      ensures IsDigit(t[i])
    {
      assert t[i] == Number(o.num)[i - 1];
    }
  }

  lemma DefaultAuthorIsToken(o: Origin)
    requires Named(o)
    ensures AuthorToken("@" + o.prAuthor) && NoSpace("@" + o.prAuthor)
  {
  }

  lemma NoSpaceIsTrimmed(s: string)
    requires NoSpace(s)
    ensures TrimSpace(s) == s
  {
    TrimSpaceOf(s);
  }

  lemma ResolvedIsPrintable(o: Origin, n: Note)
    requires Named(o) && Recognised(n) && TrimSpace(n.text) != ""
    ensures Printable(Resolved(o, n))
  {
    hide SourceToken, RefToken, AuthorToken, TrimSpace, Inner;
    NoSpaceIsTrimmed(n.source);
    NoSpaceIsTrimmed(n.ref);
    NoSpaceIsTrimmed(n.author);
    DefaultSourceIsToken(o);
    DefaultRefIsToken(o);
    DefaultAuthorIsToken(o);
    TrimmedTextIsInner(n.text);
    var a := TrimSpaceIsSlice(n.text);
  }

  /** A printed note as it is read back. */
  function Reread(n: Note): Note {
    n.(text := n.text + "\n")
  }

  lemma RereadResolvesToItself(o: Origin, n: Note)
    requires Printable(n)
    ensures Resolved(o, Reread(n)) == n
  {
    hide SourceToken, RefToken, AuthorToken, TrimSpace, Inner;
    NoSpaceIsTrimmed(n.source);
    NoSpaceIsTrimmed(n.ref);
    NoSpaceIsTrimmed(n.author);
    TokensAreNotEmpty(n);
    TrimSpaceOfLine(n.text);
  }

  lemma TokensAreNotEmpty(n: Note)
    requires Printable(n)
    ensures n.source != "" && n.ref != "" && n.author != "" && n.text != ""
  {
  }

  predicate Blank(n: Note) {
    TrimSpace(n.text) == ""
  }

  lemma FirstNoteIsFound(o: Origin, n: Note, tail: string)
    requires Named(o) && Recognised(n) && !Blank(n)
    ensures FindNotes(Print(Resolved(o, n)) + tail) == [Reread(Resolved(o, n))] + FindNotes(tail)
  {
    hide ParseNote, Recognised, Printable, Print, Resolved, Named, FindNotes;
    ResolvedIsPrintable(o, n);
    PrintedNoteIsRead(Resolved(o, n), tail);
    FoundFirst(Print(Resolved(o, n)) + tail);
  }

  lemma NewlineIsSkipped(s: string)
    ensures FindNotes("\n" + s) == FindNotes(s)
    ensures FindNotes("" + s) == FindNotes(s)
  {
    assert ("\n" + s)[1..] == s;
    assert ("\n" + s)[0] != FENCE[0];
    assert ParseHead("\n" + s) == None;
    assert "" + s == s;
  }

  lemma FoundFirst(s: string)
    requires ParseNote(s).Some?
    ensures FindNotes(s) == [ParseNote(s).value.0] + FindNotes(ParseNote(s).value.1)
  {
    hide ParseNote;
  }

  // ---------- Blank notes ----------

  /** Text a note header could begin with: a fence, and the first white space is a space before a target. */
  predicate HeadLike(u: string) {
    var n := TokenLength(u);
    FENCE <= u && n + 1 < |u| && u[n] == ' ' && (u[n + 1] == 'u' || u[n + 1] == 'o' || u[n + 1] == 'd')
  }

  lemma KindHasNoSpace(k: Kind)
    ensures NoSpace(FENCE + KindText(k)) && Unbroken(FENCE + KindText(k))
  {
  }

  lemma HeadsAreHeadLike(u: string)
    requires ParseHead(u).Some?
    ensures HeadLike(u)
  {
    hide KindText, TokenLength, NoSpace, ParseKind, ParseTarget;
    var (k, s1) := ParseKind(u[|FENCE|..]).value;
    KindIsConsumed(u[|FENCE|..]);
    KindHasNoSpace(k);
    assert u == FENCE + KindText(k) + s1;
    TokenLengthOf(FENCE + KindText(k), s1);
    TargetIsConsumed(s1[1..]);
    assert u[|FENCE + KindText(k)| + 1] == s1[1..][0];
  }

  lemma KindIsConsumed(s: string)
    requires ParseKind(s).Some?
    ensures s == KindText(ParseKind(s).value.0) + ParseKind(s).value.1
  {
  }

  lemma TargetIsConsumed(s: string)
    requires ParseTarget(s).Some?
    ensures s != "" && (s[0] == 'u' || s[0] == 'o' || s[0] == 'd')
  {
    if TargetText(User) <= s {
      assert s[0] == TargetText(User)[0];
    } else if TargetText(Operator) <= s {
      assert s[0] == TargetText(Operator)[0];
    } else if TargetText(Developer) <= s {
      assert s[0] == TargetText(Developer)[0];
    } else {
      assert s[0] == TargetText(Dependency)[0];
    }
  }

  lemma NotANote(u: string)
    requires !HeadLike(u)
    ensures ParseNote(u) == None
  {
    hide ParseHead, HeadLike;
    if ParseHead(u).Some? {
      HeadsAreHeadLike(u);
    }
  }

  /** A stretch of text at whose positions no note begins. */
  lemma {:induction false} SkipStretch(stretch: string, rest: string)
    requires forall i :: 0 <= i < |stretch| ==> ParseNote(stretch[i..] + rest) == None
    ensures FindNotes(stretch + rest) == FindNotes(rest)
  {
    hide ParseNote;
    if stretch == "" {
      assert stretch + rest == rest;
    } else {
      assert stretch[0..] == stretch;
      assert (stretch + rest)[1..] == stretch[1..] + rest;
      forall i | 0 <= i < |stretch| - 1
        ensures ParseNote(stretch[1..][i..] + rest) == None
      {
        assert stretch[1..][i..] == stretch[i + 1..];
      }
      SkipStretch(stretch[1..], rest);
    }
  }

  /** No note begins inside a token that is followed by white space other than a space before a target. */
  lemma SkipToken(tok: string, rest: string)
    requires NoSpace(tok) && rest != "" && RegexSpace(rest[0])
    requires rest[0] == ' ' ==> |rest| > 1 && rest[1] != 'u' && rest[1] != 'o' && rest[1] != 'd'
    ensures FindNotes(tok + rest) == FindNotes(rest)
  {
    hide FindNotes, ParseNote, TokenLength;
    forall i | 0 <= i < |tok|
      ensures ParseNote(tok[i..] + rest) == None
    {
      TokenLengthOf(tok[i..], rest);
      NotANote(tok[i..] + rest);
    }
    SkipStretch(tok, rest);
  }

  /** No note begins at a character other than a backquote. */
  lemma SkipChar(c: char, rest: string)
    requires c != '`'
    ensures FindNotes([c] + rest) == FindNotes(rest)
  {
    assert ([c] + rest)[0] == c && ([c] + rest)[1..] == rest;
    assert FENCE[0] == '`';
  }

  lemma SkipSpaceToken(c: char, tok: string, rest: string)
    requires c != '`' && NoSpace(tok) && rest != "" && RegexSpace(rest[0])
    requires rest[0] == ' ' ==> |rest| > 1 && rest[1] != 'u' && rest[1] != 'o' && rest[1] != 'd'
    ensures FindNotes([c] + tok + rest) == FindNotes(rest)
  {
    hide FindNotes, NoSpace;
    assert [c] + tok + rest == [c] + (tok + rest);
    SkipChar(c, tok + rest);
    SkipToken(tok, rest);
  }

  /** A closing fence at the end does not open a note. */
  lemma SkipClosing()
    ensures FindNotes("\n" + ("\n" + FENCE)) == []
  {
    hide FindNotes, ParseNote, TokenLength;
    SkipChar('\n', "\n" + FENCE);
    SkipChar('\n', FENCE);
    assert "\n" == ['\n'];
    forall i | 0 <= i < |FENCE|
      ensures ParseNote(FENCE[i..] + "") == None
    {
      if i == 0 {
        assert FENCE[0..] + "" == FENCE;
        NoKindAtEnd();
      } else {
        NotANote(FENCE[i..] + "");
      }
    }
    SkipStretch(FENCE, "");
    NothingInNothing();
    assert FENCE + "" == FENCE;
  }

  lemma NothingInNothing()
    ensures FindNotes("") == []
  {
  }

  lemma NoKindAtEnd()
    ensures ParseNote(FENCE) == None
  {
    assert FENCE[|FENCE|..] == "";
    assert ParseKind("") == None;
  }

  /** The rest of a printed blank note after its fence and kind contains no note either. */
  lemma SkipHeader(r: Note)
    requires SourceToken(r.source) && RefToken(r.ref) && AuthorToken(r.author)
    requires NoSpace(r.source) && NoSpace(r.ref) && NoSpace(r.author)
    ensures FindNotes(" " + TargetText(r.target) + Tokens(r, "\n" + ("\n" + FENCE))) == []
  {
    hide FindNotes, NoSpace, TargetText;
    var block := "\n" + ("\n" + FENCE);
    assert r.source[0] == HOST[0] && r.ref[0] == '#' && r.author[0] == '@';
    SkipClosing();
    SkipSpaceToken(' ', r.author, block);
    SkipSpaceToken(' ', r.ref, " " + r.author + block);
    SkipSpaceToken(' ', r.source, " " + r.ref + (" " + r.author + block));
    TargetHasNoSpace(r.target);
    SkipSpaceToken(' ', TargetText(r.target), Tokens(r, block));
  }

  /** The tokens of a printed header, in front of a block. */
  function Tokens(r: Note, block: string): string {
    " " + r.source + (" " + r.ref + (" " + r.author + block))
  }

  lemma TargetHasNoSpace(t: Target)
    ensures NoSpace(TargetText(t))
  {
  }

  /** No second note begins inside the fence and kind of a note. */
  lemma SkipFenceAndKind(k: Kind, rest: string)
    requires ParseNote(FENCE + KindText(k) + rest) == None
    ensures FindNotes(FENCE + KindText(k) + rest) == FindNotes(rest)
  {
    hide FindNotes, ParseNote, KindText;
    var stretch := FENCE + KindText(k);
    forall i | 0 <= i < |stretch|
      ensures ParseNote(stretch[i..] + rest) == None
    {
      if i == 0 {
        assert stretch[0..] == stretch;
      } else {
        NoFenceInside(k, i, rest);
        NotANote(stretch[i..] + rest);
      }
    }
    SkipStretch(stretch, rest);
  }

  lemma NoFenceInside(k: Kind, i: nat, rest: string)
    requires 0 < i < |FENCE + KindText(k)|
    ensures !(FENCE <= (FENCE + KindText(k))[i..] + rest)
  {
    var u := (FENCE + KindText(k))[i..] + rest;
    var j := if i < |FENCE| then |FENCE| - i else 0;
    assert j < |FENCE| && u[j] == (FENCE + KindText(k))[i + j] == KindText(k)[i + j - |FENCE|] != '`';
  }

  /** A printed note parses as its header followed by whatever its block parses to. */
  lemma HeaderIsRead(r: Note, block: string)
    requires SourceToken(r.source) && RefToken(r.ref) && AuthorToken(r.author)
    requires NoSpace(r.source) && NoSpace(r.ref) && NoSpace(r.author)
    requires block != "" && RegexSpace(block[0])
    ensures var s := FENCE + KindText(r.kind) + (" " + TargetText(r.target) + Tokens(r, block));
            ParseNote(s) == match ParseBlock(block, SpaceLength(block))
                            case None => None
                            case Some((text, after)) => Some((r.(text := text), after))
  {
    hide ParseHead, ParseTokens, ParseBlock, SpaceLength, KindText, TargetText, SourceToken, RefToken, AuthorToken, NoSpace;
    var s := FENCE + KindText(r.kind) + (" " + TargetText(r.target) + Tokens(r, block));
    assert s == FENCE + (KindText(r.kind) + (" " + (TargetText(r.target) + Tokens(r, block))));
    HeadIsRead(r.kind, r.target, Tokens(r, block));
    TokensAreRead(r.source, r.ref, r.author, block);
  }

  lemma PrintIsHeader(r: Note, tail: string)
    ensures Print(r) + tail
         == FENCE + KindText(r.kind) + (" " + TargetText(r.target) + Tokens(r, "\n" + (r.text + "\n" + (FENCE + tail))))
  {
    hide KindText, TargetText;
  }

  /** A printed blank note at the end is not found again. */
  lemma BlankNoteIsLost(o: Origin, n: Note)
    requires Named(o) && Recognised(n) && Blank(n)
    ensures FindNotes(Print(Resolved(o, n))) == []
  {
    hide ParseNote, ParseBlock, Print, SpaceLength, KindText, TargetText, SourceToken, RefToken, AuthorToken, NoSpace, Inner, TrimSpace, FindNotes, Tokens;
    var r := Resolved(o, n);
    TokensStayTokens(o, n);
    PrintIsHeader(r, "");
    var block := "\n" + ("\n" + FENCE);
    assert "\n" + (r.text + "\n" + (FENCE + "")) == block;
    assert Print(r) + "" == Print(r);
    HeaderIsRead(r, block);
    NoBlock();
    SkipFenceAndKind(r.kind, " " + TargetText(r.target) + Tokens(r, block));
    SkipHeader(r);
  }

  /** A printed blank note in front of another one is read back with the text "```". */
  lemma BlankNoteTakesNextFence(o: Origin, n: Note, next: string)
    requires Named(o) && Recognised(n) && Blank(n) && FENCE <= next
    ensures var r := Resolved(o, n);
            ParseNote(Print(r) + ("\n" + next)) == Some((r.(text := FENCE + "\n"), next[|FENCE|..]))
  {
    hide ParseNote, ParseBlock, Print, SpaceLength, KindText, TargetText, SourceToken, RefToken, AuthorToken, NoSpace, Inner, TrimSpace, FindNotes, Tokens;
    var r := Resolved(o, n);
    TokensStayTokens(o, n);
    PrintIsHeader(r, "\n" + next);
    var block := "\n" + (r.text + "\n" + (FENCE + ("\n" + next)));
    assert block == "\n" + ("\n" + (FENCE + "\n" + next));
    HeaderIsRead(r, block);
    StolenFence(next);
  }

  lemma StolenFence(next: string)
    requires FENCE <= next
    ensures var s := "\n" + ("\n" + (FENCE + "\n" + next));
            ParseBlock(s, SpaceLength(s)) == Some((FENCE + "\n", next[|FENCE|..]))
  {
    var s2 := FENCE + "\n" + next;
    var s := "\n" + ("\n" + s2);
    assert s[1..] == "\n" + s2 && s[1..][1..] == s2 && s2[0] == '`';
    assert SpaceLength(s) == 2;
    assert s[2..] == s2;
    FirstNewlineIs(s2, |FENCE|);
    assert s2[|FENCE| + 1..] == next && s2[..|FENCE| + 1] == FENCE + "\n";
    assert ParseText(s2) == Some((FENCE + "\n", next[|FENCE|..]));
  }

  lemma NoBlock()
    ensures var s := "\n" + ("\n" + FENCE); ParseBlock(s, SpaceLength(s)) == None
  {
    var s := "\n" + ("\n" + FENCE);
    assert s[1..] == "\n" + FENCE && s[1..][1..] == FENCE && FENCE[0] == '`';
    assert SpaceLength(s) == 2;
    assert s[2..] == FENCE;
    assert ParseText("\n" + FENCE) == None;
    assert FENCE[1..][1..][1..] == "";
    assert ParseText(FENCE) == None;
    assert ParseBlock(s, 0) == None;
    assert ParseBlock(s, 1) == None;
  }

  lemma TokensStayTokens(o: Origin, n: Note)
    requires Named(o) && Recognised(n)
    ensures var r := Resolved(o, n);
            && SourceToken(r.source) && RefToken(r.ref) && AuthorToken(r.author)
            && NoSpace(r.source) && NoSpace(r.ref) && NoSpace(r.author)
  {
    hide SourceToken, RefToken, AuthorToken, TrimSpace, Inner;
    NoSpaceIsTrimmed(n.source);
    NoSpaceIsTrimmed(n.ref);
    NoSpaceIsTrimmed(n.author);
    DefaultSourceIsToken(o);
    DefaultRefIsToken(o);
    DefaultAuthorIsToken(o);
  }

  // ---------- The normal form ----------

  predicate NoBlanks(notes: seq<Note>) {
    forall k :: 0 <= k < |notes| ==> !Blank(notes[k])
  }

  /** Reading the output again with the same arguments gives the same output. */
  predicate Stable(o: Origin, notes: seq<Note>) {
    PrintAll(o, FindNotes(PrintAll(o, notes))) == PrintAll(o, notes)
  }

  lemma PrintStartsWithFence(n: Note)
    ensures FENCE <= Print(n)
  {
    hide KindText, TargetText;
  }

  lemma {:induction false} StableIffNoBlanks(o: Origin, notes: seq<Note>)
    requires Named(o) && forall k :: 0 <= k < |notes| ==> Recognised(notes[k])
    ensures Stable(o, notes) <==> NoBlanks(notes)
  {
    hide ParseNote, Recognised, Print, Resolved, Blank, Named, FindNotes;
    if notes == [] {
      NothingInNothing();
    } else {
      StableIffNoBlanks(o, notes[1..]);
      assert NoBlanks(notes) <==> !Blank(notes[0]) && NoBlanks(notes[1..]);
      if !Blank(notes[0]) {
        StableCons(o, notes);
      } else if |notes| == 1 {
        BlankNoteIsLost(o, notes[0]);
        PrintStartsWithFence(Resolved(o, notes[0]));
      } else {
        BlankUnstable(o, notes);
      }
    }
  }

  /** A first note with a text is reproduced, so stability depends on the others. */
  lemma StableCons(o: Origin, notes: seq<Note>)
    requires Named(o) && notes != [] && (forall k :: 0 <= k < |notes| ==> Recognised(notes[k])) && !Blank(notes[0])
    ensures Stable(o, notes) <==> Stable(o, notes[1..])
  {
    hide ParseNote, Recognised, Printable, Print, Resolved, TrimSpace, Named, FindNotes, PrintAll;
    var n := Resolved(o, notes[0]);
    var rest := PrintAll(o, notes[1..]);
    var sep := if |notes| > 1 then "\n" else "";
    PrintFirst(o, notes);
    FirstNoteIsFound(o, notes[0], sep + rest);
    NewlineIsSkipped(rest);
    assert PrintAll(o, notes) == Print(n) + (sep + rest);
    var again := [Reread(n)] + FindNotes(rest);
    ResolvedIsPrintable(o, notes[0]);
    RereadResolvesToItself(o, n);
    PrintFirst(o, again);
    assert again[1..] == FindNotes(rest);
    var sep' := if |again| > 1 then "\n" else "";
    assert PrintAll(o, again) == Print(n) + (sep' + PrintAll(o, FindNotes(rest)));
    SamePrefix(Print(n), sep + rest, sep' + PrintAll(o, FindNotes(rest)));
    SamePrefix("\n", rest, PrintAll(o, FindNotes(rest)));
    NothingInNothing();
    PrintNothing(o, notes[1..]);
    PrintNothing(o, FindNotes(rest));
  }

  lemma SamePrefix(p: string, a: string, b: string)
    ensures p + a == p + b <==> a == b
  {
    assert (p + a)[|p|..] == a && (p + b)[|p|..] == b;
  }

  lemma PrintNothing(o: Origin, notes: seq<Note>)
    ensures notes == [] <==> PrintAll(o, notes) == ""
    ensures notes != [] ==> FENCE <= PrintAll(o, notes)
  {
    hide Print, Resolved;
    if notes != [] {
      PrintFirst(o, notes);
      PrintStartsWithFence(Resolved(o, notes[0]));
    }
  }

  /** A blank note in front of others comes back with another text. */
  lemma BlankUnstable(o: Origin, notes: seq<Note>)
    requires Named(o) && |notes| > 1 && (forall k :: 0 <= k < |notes| ==> Recognised(notes[k])) && Blank(notes[0])
    ensures !Stable(o, notes)
  {
    hide ParseNote, Recognised, Printable, Print, Blank, Named, FindNotes, PrintAll, Resolved;
    var r := Resolved(o, notes[0]);
    var rest := PrintAll(o, notes[1..]);
    PrintFirst(o, notes);
    PrintNothing(o, notes[1..]);
    assert PrintAll(o, notes) == Print(r) + ("\n" + rest);
    BlankNoteTakesNextFence(o, notes[0], rest);
    FoundFirst(PrintAll(o, notes));
    var x := r.(text := FENCE + "\n");
    var again := [x] + FindNotes(rest[|FENCE|..]);
    PrintFirst(o, again);
    StolenResolves(o, notes[0]);
    TextsDiffer(r, r.(text := FENCE), "\n" + rest, (if |again| > 1 then "\n" else "") + PrintAll(o, again[1..]));
  }

  lemma StolenResolves(o: Origin, n: Note)
    requires Named(o) && Recognised(n) && Blank(n)
    ensures var r := Resolved(o, n); r.text == "" && Resolved(o, r.(text := FENCE + "\n")) == r.(text := FENCE)
  {
    hide SourceToken, RefToken, AuthorToken, TrimSpace, Inner, NoSpace;
    TokensStayTokens(o, n);
    var r := Resolved(o, n);
    NoSpaceIsTrimmed(r.source);
    NoSpaceIsTrimmed(r.ref);
    NoSpaceIsTrimmed(r.author);
    ShapesAreNotEmpty(r);
    TrimSpaceOfLine(FENCE);
  }

  lemma ShapesAreNotEmpty(r: Note)
    requires SourceToken(r.source) && RefToken(r.ref) && AuthorToken(r.author)
    ensures r.source != "" && r.ref != "" && r.author != ""
  {
  }

  lemma TextsDiffer(r: Note, r': Note, a: string, b: string)
    requires r.text == "" && r' == r.(text := FENCE)
    ensures Print(r) + a != Print(r') + b
  {
    hide KindText, TargetText;
    var head := FENCE + KindText(r.kind) + " " + TargetText(r.target) + " " + r.source + " " + r.ref + " " + r.author + "\n";
    assert Print(r) + a == head + ("\n" + FENCE + a);
    assert Print(r') + b == head + (FENCE + "\n" + FENCE + b);
    SamePrefix(head, "\n" + FENCE + a, FENCE + "\n" + FENCE + b);
    assert ("\n" + FENCE + a)[0] != (FENCE + "\n" + FENCE + b)[0];
  }

  lemma BlankLength()
    ensures SpaceLength("\n \n" + FENCE) == 3
  {
    hide ParseText, ParseBlock, FirstNewline;
    var s := "\n \n" + FENCE;
    var s1, s2 := " \n" + FENCE, "\n" + FENCE;
    assert s[1..] == s1 && s1[1..] == s2 && s2[1..] == FENCE && FENCE[0] == '`';
    assert SpaceLength(FENCE) == 0 && SpaceLength(s2) == 1 && SpaceLength(s1) == 2;
  }

  lemma BlankText()
    ensures ParseText(" \n" + FENCE) == Some((" \n", "")) && ParseText(FENCE) == None
  {
    hide SpaceLength, ParseBlock, FirstNewline;
    var s1 := " \n" + FENCE;
    FirstNewlineIs(s1, 1);
    assert s1[2..] == FENCE && s1[..2] == " \n" && FENCE[|FENCE|..] == "";
    assert forall i :: 0 <= i < |FENCE| ==> FENCE[i] == '`';
    assert FirstNewline(FENCE) == |FENCE|;
  }

  lemma BlankBlock()
    ensures var s := "\n \n" + FENCE; SpaceLength(s) == 3 && ParseBlock(s, 3) == Some((" \n", ""))
  {
    hide SpaceLength, ParseText, FirstNewline;
    BlankLength();
    BlankText();
    var s := "\n \n" + FENCE;
    assert s[1..] == " \n" + FENCE && s[3..] == FENCE;
    assert ParseBlock(s, 1) == Some((" \n", ""));
    assert ParseBlock(s, 2) == Some((" \n", ""));
  }

  /** A body with a note whose text is blank. */
  lemma BlankNoteExists()
    ensures var notes := FindNotes("```doc user\n \n```");
            notes == [Note(Doc, User, "", "", "", " \n")] && Blank(notes[0]) && Recognised(notes[0])
  {
    hide ParseHead, ParseBlock, SpaceLength, FirstNewline, TokenLength;
    var body, tokens := "```doc user\n \n```", "\n \n" + FENCE;
    assert body == FENCE + (KindText(Doc) + (" " + (TargetText(User) + tokens)));
    HeadIsRead(Doc, User, tokens);
    BlankBlock();
    assert tokens[0] == '\n' && ParseTokens(tokens) == ("", "", "", tokens);
    assert ParseNote(body) == Some((Note(Doc, User, "", "", "", " \n"), ""));
    NoteIsShaped(body);
    FoundFirst(body);
    NothingInNothing();
    TrimSpaceOfBlank();
  }

  lemma TrimSpaceOfBlank()
    ensures TrimSpace(" \n") == ""
  {
    assert " \n"[1..] == "\n" && "\n"[1..] == "";
  }

  /**
   Normal form: the output is read back and printed unchanged iff no recognised note has a blank text,
   provided that the headers of the notes are tidy.
   */
  lemma NormalForm(o: Origin, body: string)
    requires Named(o) && forall k :: 0 <= k < |FindNotes(body)| ==> Tidy(FindNotes(body)[k])
    ensures var output := PrintAll(o, FindNotes(body));
            PrintAll(o, FindNotes(output)) == output <==> NoBlanks(FindNotes(body))
  {
    hide Shaped, Tidy, Named, FindNotes, PrintAll, Blank;
    NotesAreShaped(body);
    StableIffNoBlanks(o, FindNotes(body));
  }

  // ---------- What the output says ----------

  ghost predicate StrippedAt(t: string, s: string, a: nat) {
    && a + |t| <= |s| && t == s[a..a + |t|]
    && (forall i :: 0 <= i < a ==> TrimmedSpace(s[i]))
    && (forall i :: a + |t| <= i < |s| ==> TrimmedSpace(s[i]))
  }

  /** t is s without the white space at both ends. */
  ghost predicate Stripped(t: string, s: string) {
    && (exists a: nat :: StrippedAt(t, s, a))
    && (t != "" ==> !TrimmedSpace(t[0]) && !TrimmedSpace(t[|t| - 1]))
  }

  /** m carries the message of n: with the parts that n gives itself, and the defaults of the pull request for the others. */
  ghost predicate Says(o: Origin, n: Note, m: Note) {
    var own := n.source != "" && n.ref != "";
    && m.kind == n.kind && m.target == n.target
    && m.source == (if own then n.source else "github.com/" + o.org + "/" + o.repo)
    && m.ref == (if own then n.ref else "#" + Number(o.num))
    && m.author == (if n.author == "" then "@" + o.prAuthor else n.author)
    && (exists t :: Stripped(t, n.text) && m.text == t + "\n")
  }

  lemma TrimSpaceStrips(s: string)
    ensures Stripped(TrimSpace(s), s)
  {
    hide TrimLeftSpace, TrimRightSpace, TrimmedSpace;
    var left := TrimLeftSpace(s);
    var t := TrimSpace(s);
    var a := |s| - |left|;
    assert t == left[..|t|];
    forall i | a + |t| <= i < |s|
      ensures TrimmedSpace(s[i])
    {
      assert s[i] == left[i - a];
    }
    assert StrippedAt(t, s, a);
  }

  /** A printed number is written as usual and denotes the number. */
  lemma {:induction false} NumberDenotes(n: nat)
    ensures Digits(Number(n)) && Value(Number(n)) == n
    ensures n > 0 ==> Number(n)[0] != '0'
    ensures n == 0 ==> Number(n) == "0"
    ensures n > 0 ==> Number(0 - n) == "-" + Number(n)
  {
    if n < 10 {
      assert Number(n)[1..] == "" && Pow10(0) == 1;
    } else {
      NumberDenotes(n / 10);
      ValueOfNext(Number(n / 10), Number(n)[|Number(n)| - 1]);
    }
  }

  lemma {:induction false} ValueOfNext(s: string, c: char)
    requires (forall i :: 0 <= i < |s| ==> IsDigit(s[i])) && IsDigit(c)
    ensures Value(s + [c]) == 10 * Value(s) + DigitValue(c)
  {
    hide DigitValue, IsDigit;
    if s == "" {
      assert s + [c] == [c] && [c][1..] == "" && Pow10(0) == 1;
    } else {
      assert (s + [c])[1..] == s[1..] + [c];
      ValueOfNext(s[1..], c);
      Shift(DigitValue(s[0]), Pow10(|s| - 1));
    }
  }

  lemma Shift(d: nat, p: nat)
    ensures d * (10 * p) == 10 * (d * p)
  {
  }

  lemma ResolvedSays(o: Origin, n: Note)
    requires Tidy(n)
    ensures Says(o, n, Reread(Resolved(o, n)))
  {
    hide TrimSpace, Stripped, Number;
    NoSpaceIsTrimmed(n.source);
    NoSpaceIsTrimmed(n.ref);
    NoSpaceIsTrimmed(n.author);
    TrimSpaceStrips(n.text);
  }

  lemma {:induction false} PrintedNotesSay(o: Origin, notes: seq<Note>)
    requires Named(o) && NoBlanks(notes) && forall k :: 0 <= k < |notes| ==> Recognised(notes[k])
    ensures var again := FindNotes(PrintAll(o, notes));
            |again| == |notes| && forall k :: 0 <= k < |notes| ==> Says(o, notes[k], again[k])
  {
    hide Shaped, Tidy, Print, Resolved, Blank, Named, FindNotes, PrintAll, Says, Reread;
    PrintNothing(o, notes);
    if notes == [] {
      NothingInNothing();
    } else {
      PrintFirst(o, notes);
      var rest := PrintAll(o, notes[1..]);
      var sep := if |notes| > 1 then "\n" else "";
      FirstNoteIsFound(o, notes[0], sep + rest);
      NewlineIsSkipped(rest);
      assert PrintAll(o, notes) == Print(Resolved(o, notes[0])) + (sep + rest);
      ResolvedSays(o, notes[0]);
      PrintedNotesSay(o, notes[1..]);
    }
  }

  /**
   The output says what the body said: for tidy headers and texts that are not blank, reading the output gives
   note for note the same message, with the defaults of the pull request filled in.
   */
  lemma OutputSays(o: Origin, body: string)
    requires Named(o) && NoBlanks(FindNotes(body))
    requires forall k :: 0 <= k < |FindNotes(body)| ==> Tidy(FindNotes(body)[k])
    ensures var notes, again := FindNotes(body), FindNotes(PrintAll(o, FindNotes(body)));
            |again| == |notes| && forall k :: 0 <= k < |notes| ==> Says(o, notes[k], again[k])
  {
    hide Shaped, Tidy, Named, FindNotes, PrintAll, Blank, Says;
    NotesAreShaped(body);
    PrintedNotesSay(o, FindNotes(body));
  }

  // ---------- Notes as they are written ----------

  /** The words of the expression. */
  lemma WordsAreRead(rest: string)
    ensures ParseKind("breaking" + rest) == Some((Breaking, rest)) && ParseKind("noteworthy" + rest) == Some((Noteworthy, rest))
    ensures ParseKind("feature" + rest) == Some((Feature, rest)) && ParseKind("bugfix" + rest) == Some((Bugfix, rest))
    ensures ParseKind("doc" + rest) == Some((Doc, rest)) && ParseKind("other" + rest) == Some((Other, rest))
    ensures ParseTarget("user" + rest) == Some((User, rest)) && ParseTarget("operator" + rest) == Some((Operator, rest))
    ensures ParseTarget("developer" + rest) == Some((Developer, rest)) && ParseTarget("dependency" + rest) == Some((Dependency, rest))
  {
    hide ParseKind, ParseTarget;
    KindIsRead(Breaking, rest);
    KindIsRead(Noteworthy, rest);
    KindIsRead(Feature, rest);
    KindIsRead(Bugfix, rest);
    KindIsRead(Doc, rest);
    KindIsRead(Other, rest);
    TargetIsRead(User, rest);
    TargetIsRead(Operator, rest);
    TargetIsRead(Developer, rest);
    TargetIsRead(Dependency, rest);
  }

  ghost predicate IsSource(t: string, org: string, repo: string) {
    org != "" && repo != "" && t == "github.com/" + org + "/" + repo
  }

  /** The optional parts of the expression. */
  lemma TokensIff(t: string)
    ensures SourceToken(t) <==> exists org, repo :: IsSource(t, org, repo)
    ensures RefToken(t) <==> "#" <= t && Digits(t[1..])
    ensures AuthorToken(t) <==> "@" < t
  {
    var h := "github.com/";
    assert h == HOST;
    if SourceToken(t) {
      var i :| |HOST| < i < |t| - 1 && t[i] == '/';
      assert t == h + t[|h|..i] + "/" + t[i + 1..];
      assert IsSource(t, t[|h|..i], t[i + 1..]);
    }
    if org, repo :| IsSource(t, org, repo) {
      assert h <= t && t[|h| + |org|] == '/';
    }
    if RefToken(t) {
      assert forall i :: 0 <= i < |t[1..]| ==> t[1..][i] == t[i + 1];
    }
    if "#" <= t && Digits(t[1..]) {
      assert forall i :: 1 <= i < |t| ==> t[i] == t[1..][i - 1];
    }
  }

  /** The white space of the expression, and the characters with Unicode's property White_Space. */
  lemma SpacesAre(c: char)
    ensures RegexSpace(c) <==> c in "\t\n\U{000C}\r "
    ensures TrimmedSpace(c) <==>
      || c in "\t\n\U{000B}\U{000C}\r \U{0085}\U{00A0}\U{1680}\U{2028}\U{2029}\U{202F}\U{205F}\U{3000}"
      || c in "\U{2000}\U{2001}\U{2002}\U{2003}\U{2004}\U{2005}\U{2006}\U{2007}\U{2008}\U{2009}\U{200A}"
  {
    if '\U{2000}' <= c <= '\U{200A}' {
      var k := c as int - 0x2000;
      assert 0 <= k <= 10;
    }
  }

  /** An optional part of a header. */
  function Part(t: string): string {
    if t == "" then "" else " " + t
  }

  /** White space that ends in a newline. */
  ghost predicate LineBreak(ws: string) {
    ws != "" && ws[|ws| - 1] == '\n' && forall i :: 0 <= i < |ws| ==> RegexSpace(ws[i])
  }

  /** A note block in front of some text. */
  function Written(n: Note, ws: string, tail: string): string {
    "```" + (KindText(n.kind) + (" " + (TargetText(n.target) + (Part(n.source) + (Part(n.ref) + (Part(n.author) + (ws + (n.text + ("```" + tail)))))))))
  }

  /** The token after a space, if that is what a text begins with. */
  function Upcoming(s: string): string {
    if s == "" || s[0] != ' ' then "" else s[1..1 + TokenLength(s[1..])]
  }

  lemma UpcomingPart(t: string, rest: string)
    requires Unbroken(t) && rest != "" && RegexSpace(rest[0])
    ensures Upcoming(Part(t) + rest) == if t == "" then Upcoming(rest) else t
    ensures Part(t) + rest != "" && RegexSpace((Part(t) + rest)[0])
  {
    if t == "" {
      assert Part(t) + rest == rest;
    } else {
      var s := Part(t) + rest;
      assert s[1..] == t + rest;
      TokenLengthOf(t, rest);
      assert s[1..1 + |t|] == t;
    }
  }

  lemma UpcomingBreak(ws: string, rest: string)
    requires LineBreak(ws)
    ensures Upcoming(ws + rest) == ""
  {
    if ws[0] == ' ' {
      assert (ws + rest)[1] == ws[1];
    }
  }

  /** A part is taken iff it is there, provided that what comes next cannot be mistaken for it. */
  lemma PartIsRead(t: string, rest: string, wanted: string -> bool)
    requires Unbroken(t) && rest != "" && RegexSpace(rest[0])
    requires (t == "" || wanted(t)) && !wanted("") && !wanted(Upcoming(rest))
    ensures OptionalToken(Part(t) + rest, wanted) == (t, rest)
  {
    hide TokenLength;
    if t == "" {
      assert Part(t) + rest == rest;
    } else {
      TokenIsRead(t, rest, wanted);
      assert Part(t) + rest == " " + t + rest;
    }
  }

  lemma TokensDiffer(t: string)
    ensures SourceToken(t) ==> !RefToken(t) && !AuthorToken(t)
    ensures RefToken(t) ==> !AuthorToken(t)
    ensures !SourceToken("") && !RefToken("") && !AuthorToken("")
  {
    if SourceToken(t) {
      assert t[0] == HOST[0];
    }
  }

  lemma PartsAreRead(source: string, ref: string, author: string, ws: string, rest: string)
    requires Unbroken(source) && Unbroken(ref) && Unbroken(author) && LineBreak(ws)
    requires source == "" || SourceToken(source)
    requires ref == "" || RefToken(ref)
    requires author == "" || AuthorToken(author)
    ensures ParseTokens(Part(source) + (Part(ref) + (Part(author) + (ws + rest)))) == (source, ref, author, ws + rest)
  {
    hide SourceToken, RefToken, AuthorToken, Upcoming, Part, OptionalToken, Unbroken, LineBreak;
    var s5 := ws + rest;
    assert s5 != "" && RegexSpace(s5[0]) by {
      BreakStarts(ws, rest);
    }
    var s4 := Part(author) + s5;
    var s3 := Part(ref) + s4;
    UpcomingBreak(ws, rest);
    UpcomingPart(author, s5);
    UpcomingPart(ref, s4);
    TokensDiffer(author);
    TokensDiffer(ref);
    PartIsRead(author, s5, AuthorToken);
    PartIsRead(ref, s4, RefToken);
    SourceIsNext(source, s3);
  }

  lemma SourceIsNext(source: string, rest: string)
    requires Unbroken(source) && (source == "" || SourceToken(source)) && rest != "" && RegexSpace(rest[0])
    requires Upcoming(rest) == "" || RefToken(Upcoming(rest)) || AuthorToken(Upcoming(rest))
    ensures OptionalToken(Part(source) + rest, SourceToken) == (source, rest)
  {
    hide SourceToken, RefToken, AuthorToken, Upcoming, Part, OptionalToken, Unbroken;
    TokensDiffer(Upcoming(rest));
    PartIsRead(source, rest, SourceToken);
  }

  lemma BreakStarts(ws: string, rest: string)
    requires LineBreak(ws)
    ensures ws + rest != "" && RegexSpace((ws + rest)[0])
  {
    assert (ws + rest)[0] == ws[0];
  }

  lemma {:induction false} SpaceLengthOf(ws: string, rest: string)
    requires forall i :: 0 <= i < |ws| ==> RegexSpace(ws[i])
    ensures SpaceLength(ws + rest) == |ws| + SpaceLength(rest)
  {
    if ws == "" {
      assert ws + rest == rest;
    } else {
      assert (ws + rest)[1..] == ws[1..] + rest;
      SpaceLengthOf(ws[1..], rest);
    }
  }

  lemma {:induction false} NoBlockBetween(s: string, n: nat, m: nat)
    requires n <= m <= |s| && forall i :: n <= i < m ==> s[i] != '\n'
    ensures ParseBlock(s, m) == ParseBlock(s, n)
  {
    hide ParseText;
    if n < m {
      NoBlockBetween(s, n, m - 1);
    }
  }

  /** The white space before a text ends in the text's first line. */
  lemma LeadingSpace(ws: string, text: string, rest: string)
    requires LineBreak(ws) && '\n' in text && forall i :: 0 <= i < SpaceLength(text) ==> text[i] != '\n'
    ensures var s, k := ws + (text + rest), SpaceLength(text);
            && SpaceLength(s) == |ws| + k && |ws| + k <= |s|
            && s[|ws|..] == text + rest && s[|ws| - 1] == '\n' && forall i :: |ws| <= i < |ws| + k ==> s[i] != '\n'
  {
    hide SpaceLength;
    var k := SpaceLength(text);
    var more := text + rest;
    var s := ws + more;
    assert more == text[..k] + (text[k..] + rest);
    SpaceLengthOf(text[..k], text[k..] + rest);
    SpaceEnds(text[k..] + rest);
    SpaceLengthOf(ws, more);
  }

  /** The text of a block is read from where its first line begins. */
  lemma TextIsRead(ws: string, text: string, tail: string)
    requires LineBreak(ws) && |text| > 0 && text[|text| - 1] == '\n' && Inner(text[..|text| - 1])
    requires forall i :: 0 <= i < SpaceLength(text) ==> text[i] != '\n'
    ensures var s := ws + (text + ("```" + tail)); ParseBlock(s, SpaceLength(s)) == Some((text, tail))
  {
    hide ParseText, ParseBlock, SpaceLength, Inner;
    LeadingSpace(ws, text, "```" + tail);
    LinesAreRead(text, tail);
    BlockAfterSpace(ws + (text + ("```" + tail)), |ws|, SpaceLength(text));
  }

  lemma LinesAreRead(text: string, tail: string)
    requires |text| > 0 && text[|text| - 1] == '\n' && Inner(text[..|text| - 1])
    ensures ParseText(text + ("```" + tail)) == Some((text, tail))
  {
    hide ParseText, Inner;
    var y := text[..|text| - 1];
    assert text == y + "\n";
    InnerTextIsParsed(y, tail);
  }

  lemma BlockAfterSpace(s: string, n: nat, k: nat)
    requires 0 < n && n + k <= |s| && s[n - 1] == '\n' && (forall i :: n <= i < n + k ==> s[i] != '\n') && ParseText(s[n..]).Some?
    ensures ParseBlock(s, n + k) == ParseText(s[n..])
  {
    hide ParseText, ParseBlock;
    NoBlockBetween(s, n, n + k);
    BlockFrom(s, n);
  }

  lemma BlockFrom(s: string, n: nat)
    requires 0 < n <= |s| && s[n - 1] == '\n' && ParseText(s[n..]).Some?
    ensures ParseBlock(s, n) == ParseText(s[n..])
  {
    hide ParseText;
  }

  lemma SpaceEnds(s: string)
    requires s == "" || !RegexSpace(s[0])
    ensures SpaceLength(s) == 0
  {
  }

  /**
   Every block that is written as the expression has it, with any of the optional parts, is read in full,
   provided that the white space before the text is as long as it can be.
   */
  lemma WrittenNoteIsRead(n: Note, ws: string, tail: string)
    requires Shaped(n) && Unbroken(n.source) && Unbroken(n.ref) && Unbroken(n.author)
    requires LineBreak(ws) && forall i :: 0 <= i < SpaceLength(n.text) ==> n.text[i] != '\n'
    ensures ParseNote(Written(n, ws, tail)) == Some((n, tail))
  {
    hide ParseHead, ParseTokens, ParseBlock, SpaceLength, KindText, TargetText, SourceToken, RefToken, AuthorToken, Unbroken, Inner, LineBreak, Part;
    var block := ws + (n.text + ("```" + tail));
    HeadIsRead(n.kind, n.target, Part(n.source) + (Part(n.ref) + (Part(n.author) + block)));
    PartsAreRead(n.source, n.ref, n.author, ws, n.text + ("```" + tail));
    TextIsRead(ws, n.text, tail);
  }

  lemma TargetIsWhole(s: string)
    requires ParseTarget(s).Some?
    ensures s == TargetText(ParseTarget(s).value.0) + ParseTarget(s).value.1
  {
  }

  lemma HeadIsWhole(s: string)
    requires ParseHead(s).Some?
    ensures var (k, t, rest) := ParseHead(s).value; s == "```" + (KindText(k) + (" " + (TargetText(t) + rest)))
  {
    hide KindText, TargetText, ParseKind, ParseTarget;
    KindIsConsumed(s[|FENCE|..]);
    var (k, s1) := ParseKind(s[|FENCE|..]).value;
    TargetIsWhole(s1[1..]);
    assert s == FENCE + s[|FENCE|..] && s1 == " " + s1[1..];
  }

  lemma TokenIsWhole(s: string, wanted: string -> bool)
    requires !wanted("")
    ensures var (t, rest) := OptionalToken(s, wanted); s == Part(t) + rest && Unbroken(t)
  {
    var (t, rest) := OptionalToken(s, wanted);
    if t != "" {
      var n := 1 + TokenLength(s[1..]);
      assert s == [s[0]] + s[1..n] + s[n..];
    }
  }

  lemma TokensAreWhole(s: string)
    ensures var (source, ref, author, rest) := ParseTokens(s);
            s == Part(source) + (Part(ref) + (Part(author) + rest)) && Unbroken(source) && Unbroken(ref) && Unbroken(author)
  {
    hide OptionalToken, SourceToken, RefToken, AuthorToken, Part, Unbroken;
    TokensDiffer("");
    TokenIsWhole(s, SourceToken);
    var s3 := OptionalToken(s, SourceToken).1;
    TokenIsWhole(s3, RefToken);
    TokenIsWhole(OptionalToken(s3, RefToken).1, AuthorToken);
  }

  lemma {:induction false} BlockIsWhole(s: string, n: nat) returns (ws: string)
    requires n <= SpaceLength(s) && ParseBlock(s, n).Some?
    ensures var (text, after) := ParseBlock(s, n).value; LineBreak(ws) && s == ws + (text + ("```" + after))
  {
    hide ParseText, SpaceLength;
    if s[n - 1] == '\n' && ParseText(s[n..]).Some? {
      ws := s[..n];
      ParsedTextSplits(s[n..]);
      var (text, after) := ParseText(s[n..]).value;
      assert s == ws + s[n..] && s[n..] == text + FENCE + after;
      Glue([], text, FENCE, after);
    } else {
      ws := BlockIsWhole(s, n - 1);
    }
  }

  /** Whatever is read as a note is written as the expression has it, and nothing else is consumed. */
  lemma ReadNoteIsWritten(s: string) returns (ws: string)
    requires ParseNote(s).Some?
    ensures var (n, after) := ParseNote(s).value;
            && Shaped(n) && Unbroken(n.source) && Unbroken(n.ref) && Unbroken(n.author)
            && LineBreak(ws) && s == Written(n, ws, after)
  {
    hide ParseHead, ParseTokens, ParseBlock, SpaceLength, KindText, TargetText, Unbroken, Shaped, LineBreak, Part;
    NoteIsShaped(s);
    HeadIsWhole(s);
    var s2 := ParseHead(s).value.2;
    TokensAreWhole(s2);
    var s5 := ParseTokens(s2).3;
    ws := BlockIsWhole(s5, SpaceLength(s5));
  }
}
