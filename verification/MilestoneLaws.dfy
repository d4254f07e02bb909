/** Laws of the milestone-activator: frame, change flag, idempotence and round trips. */
module MilestoneLaws {
  import opened Wrappers
  import opened Text
  import opened MilestoneActivator

  // ---------- One line ----------

  /** The line reaches the offset and has only spaces before it. */
  predicate Indented(line: string, offset: nat) {
    offset <= |line| && Blank(line[..offset])
  }

  predicate CommentAt(line: string, offset: nat)
    requires offset <= |line|
  {
    COMMENT <= line[offset..]
  }

  /** Milestone texts the activator can find again after writing them. */
  predicate Findable(milestone: string) {
    LastIndex(milestone, PROPERTY) == -1
  }

  /** A line that is reported unchanged is unchanged. */
  lemma ReportedUnchanged(line: string, milestone: string, offset: nat)
    requires HandleLine(line, milestone, offset).Some?
    ensures var ch := HandleLine(line, milestone, offset).value;
            ch.line != line ==> ch.changes
  {
  }

  lemma PropertyStartsWithM(s: string, i: nat)
    requires OccursAt(s, PROPERTY, i)
    ensures s[i] == 'm'
    ensures forall j :: i < j < i + |PROPERTY| ==> s[j] != 'm'
  {
    assert s[i] == s[i..i + |PROPERTY|][0];
    forall j | i < j < i + |PROPERTY|
      ensures s[j] != 'm'
    {
      assert s[j] == s[i..i + |PROPERTY|][j - i];
    }
  }

  lemma OccursInTail(head: string, tail: string, p: string, j: nat)
    requires j >= |head|
    ensures OccursAt(head + tail, p, j) <==> OccursAt(tail, p, j - |head|)
  {
    if j + |p| <= |head + tail| {
      assert (head + tail)[j..j + |p|] == tail[j - |head|..j - |head| + |p|];
    }
  }

  /** Writing the milestone leaves the `milestone:` it was written after the last one. */
  lemma PropertyStaysLast(line: string, i: nat, milestone: string)
    requires OccursAt(line, PROPERTY, i) && Findable(milestone)
    ensures LastIndex(line[..i + |PROPERTY|] + " " + milestone, PROPERTY) == i
  {
    hide LastIndex;
    var head := line[..i + |PROPERTY|] + " ";
    var r := head + milestone;
    assert r[i..i + |PROPERTY|] == line[i..i + |PROPERTY|];
    PropertyStartsWithM(r, i);
    forall j | i < j <= |r| - |PROPERTY|
      ensures !OccursAt(r, PROPERTY, j)
    {
      if OccursAt(r, PROPERTY, j) {
        PropertyStartsWithM(r, j);
      }
      if j >= |head| {
        OccursInTail(head, milestone, PROPERTY, j);
      }
    }
    LastIndexIs(r, PROPERTY, i);
  }

  /** Writing the milestone again changes nothing iff the text can be found again or there is nothing to write. */
  lemma MilestoneIsStable(line: string, milestone: string)
    ensures WithMilestone(WithMilestone(line, milestone), milestone) == WithMilestone(line, milestone)
       <==> Findable(milestone) || LastIndex(line, PROPERTY) == -1
  {
    hide LastIndex;
    var i := LastIndex(line, PROPERTY);
    if i != -1 {
      if Findable(milestone) {
        PropertyStaysLast(line, i, milestone);
      } else {
        var head := line[..i + |PROPERTY|] + " ";
        OccursInTail(head, milestone, PROPERTY, |head| + LastIndex(milestone, PROPERTY));
        assert LastIndex(head + milestone, PROPERTY) >= |head|;
      }
    }
  }

  lemma TrimLeftIs(s: string, k: nat)
    requires k < |s| && Blank(s[..k]) && s[k] != ' '
    ensures TrimLeft(s) == s[k..]
  {
    TrimLeftOfBlank(s[..k], s[k..]);
    assert s == s[..k] + s[k..];
  }

  lemma CommentedAt(s: string, k: nat)
    requires k < |s| && Blank(s[..k]) && s[k] != ' '
    ensures Commented(s) <==> k + 1 < |s| && s[k] == '#' && s[k + 1] == ' '
  {
    TrimLeftIs(s, k);
    if k + 1 < |s| && s[k] == '#' && s[k + 1] == ' ' {
      assert s[k..][..2] == COMMENT;
    }
  }

  lemma FirstNonBlank(s: string, i: nat) returns (k: nat)
    requires i < |s| && s[i] != ' '
    ensures k <= i && Blank(s[..k]) && s[k] != ' '
  {
    k := |s| - |TrimLeft(s)|;
    assert TrimLeft(s) != "";
  }

  /** Writing a milestone neither comments nor uncomments a line. */
  lemma MilestoneKeepsComment(line: string, milestone: string)
    ensures Commented(WithMilestone(line, milestone)) == Commented(line)
  {
    hide LastIndex, Commented;
    var i := LastIndex(line, PROPERTY);
    if i != -1 {
      var r := WithMilestone(line, milestone);
      PropertyStartsWithM(line, i);
      var k := FirstNonBlank(line, i);
      assert r[..i + |PROPERTY|] == line[..i + |PROPERTY|];
      assert r[..k] == line[..k] && r[k] == line[k] && r[k + 1] == line[k + 1];
      CommentedAt(line, k);
      CommentedAt(r, k);
    }
  }

  /** A comment marker at the offset of an indented line comments the line. */
  lemma CommentAtOffset(line: string, offset: nat)
    requires Indented(line, offset) && CommentAt(line, offset)
    ensures Commented(line)
  {
    assert line[offset] == line[offset..][0] == '#';
    TrimLeftIs(line, offset);
  }

  lemma UncommentedIs(line: string, offset: nat)
    requires offset <= |line|
    ensures Uncommented(line, offset) == if CommentAt(line, offset) then line[..offset] + line[offset + 2..] else line
  {
  }

  /** The line as activation sees it: without the comment at the offset, if it is commented. */
  function Bare(line: string, offset: nat): string
    requires Commented(line) ==> offset <= |line|
  {
    if Commented(line) then Uncommented(line, offset) else line
  }

  function Inserted(line: string, offset: nat): string
    requires offset <= |line|
  {
    line[..offset] + COMMENT + line[offset..]
  }

  /** Commenting at the offset of an indented line is undone by removing the comment there. */
  lemma CommentThenUncomment(line: string, offset: nat)
    requires Indented(line, offset)
    ensures var d := Inserted(line, offset);
            Indented(d, offset) && CommentAt(d, offset) && Commented(d) && Uncommented(d, offset) == line
  {
    var d := Inserted(line, offset);
    assert d[..offset] == line[..offset] && d[offset..] == COMMENT + line[offset..];
    assert line == line[..offset] + line[offset..];
    CommentAtOffset(d, offset);
  }

  /** A comment inserted behind other text does not comment the line. */
  lemma CommentBehindText(line: string, offset: nat)
    requires offset <= |line| && !Blank(line[..offset]) && !Commented(line)
    ensures !Commented(Inserted(line, offset))
  {
    hide Commented;
    var d := Inserted(line, offset);
    var i :| 0 <= i < offset && line[i] != ' ';
    var k := FirstNonBlank(line, i);
    assert d[..k] == line[..k] && d[k] == line[k];
    assert k + 1 < offset ==> d[k + 1] == line[k + 1];
    assert k + 1 == offset ==> d[k + 1] == '#';
    CommentedAt(line, k);
    CommentedAt(d, k);
  }

  // ---------- Comments within the milestone text ----------

  /** Writing the milestone into x gives t, all of it before the offset up to the text itself. */
  predicate WrittenBefore(x: string, offset: nat, t: string, milestone: string) {
    var i := LastIndex(x, PROPERTY);
    i != -1 && i + |PROPERTY| <= offset && i + |PROPERTY| <= |t| && t[i + |PROPERTY|..] == " " + milestone
  }

  /** Two texts that agree up to n, one of which is the other shifted behind "# ", alternate there. */
  lemma {:induction false} Alternates(y: string, z: string, offset: nat, n: nat, j: nat)
    requires offset <= j < n <= |y| && n <= |z| && y[..n] == z[..n]
    requires z[offset] == '#' && (offset + 1 < n ==> z[offset + 1] == ' ')
    requires forall k :: offset <= k && k + 2 < n ==> z[k + 2] == y[k]
    ensures z[j] == '#' || z[j] == ' '
  {
    if j < offset + 2 {
    } else {
      Alternates(y, z, offset, n, j - 2);
      assert y[..n][j - 2] == z[..n][j - 2];
    }
  }

  lemma NotAcross(y: string, z: string, offset: nat, i: nat)
    requires offset <= |y| && z == Inserted(y, offset)
    requires i + |PROPERTY| <= |y| && i + |PROPERTY| <= |z| && y[..i + |PROPERTY|] == z[..i + |PROPERTY|]
    requires OccursAt(y, PROPERTY, i) || OccursAt(z, PROPERTY, i)
    ensures i + |PROPERTY| <= offset
  {
    var n := i + |PROPERTY|;
    assert y[..n][i..n] == z[..n][i..n];
    assert z[n - 1] == z[i..n][|PROPERTY| - 1] == ':';
    if offset < n {
      Alternates(y, z, offset, n, n - 1);
    }
  }

  /** Writing the milestone can amount to inserting a comment only within the milestone text. */
  lemma WrittenLikeInserted(line: string, offset: nat, milestone: string)
    requires offset <= |line|
    ensures WithMilestone(line, milestone) == Inserted(line, offset)
       <==> WrittenBefore(line, offset, Inserted(line, offset), milestone)
    ensures WithMilestone(Inserted(line, offset), milestone) == line
       <==> WrittenBefore(Inserted(line, offset), offset, line, milestone)
  {
    hide LastIndex;
    WrittenLike(line, offset, milestone, line, Inserted(line, offset));
    WrittenLike(line, offset, milestone, Inserted(line, offset), line);
  }

  lemma WrittenParts(x: string, n: nat, t: string, milestone: string)
    requires n <= |x|
    ensures x[..n] + (" " + milestone) == t <==> n <= |t| && x[..n] == t[..n] && t[n..] == " " + milestone
  {
    var w := x[..n] + (" " + milestone);
    assert w[..n] == x[..n] && w[n..] == " " + milestone;
    if n <= |t| {
      assert t == t[..n] + t[n..];
    }
  }

  lemma WrittenLike(line: string, offset: nat, milestone: string, x: string, t: string)
    requires offset <= |line| && ((x == line && t == Inserted(line, offset)) || (x == Inserted(line, offset) && t == line))
    ensures WithMilestone(x, milestone) == t <==> WrittenBefore(x, offset, t, milestone)
  {
    hide LastIndex;
    var i := LastIndex(x, PROPERTY);
    if i != -1 {
      var n := i + |PROPERTY|;
      assert WithMilestone(x, milestone) == x[..n] + (" " + milestone);
      WrittenParts(x, n, t, milestone);
      if n <= |t| && x[..n] == t[..n] {
        NotAcross(line, Inserted(line, offset), offset, i);
      }
      if n <= offset {
        assert line[..n] == Inserted(line, offset)[..n];
      }
    } else {
      assert |x| != |t|;
    }
  }

  // ---------- Round trips of a line ----------

  /** Deactivating and activating again restores the line. */
  predicate Restored(line: string, milestone: string, offset: nat) {
    && offset <= |line|
    && if Commented(line) then
         if CommentAt(line, offset) then WrittenBefore(Uncommented(line, offset), offset, line, milestone)
         else WithMilestone(line, milestone) == line
       else if Blank(line[..offset]) then WithMilestone(line, milestone) == line
       else WrittenBefore(Inserted(line, offset), offset, line, milestone)
  }

  lemma InsertedBack(line: string, offset: nat)
    requires offset <= |line| && CommentAt(line, offset)
    ensures offset <= |Uncommented(line, offset)| && Inserted(Uncommented(line, offset), offset) == line
  {
    UncommentedIs(line, offset);
    var u := Uncommented(line, offset);
    assert u[..offset] == line[..offset] && u[offset..] == line[offset + 2..];
    assert line[offset..] == COMMENT + line[offset + 2..];
    assert line == line[..offset] + line[offset..];
  }

  /** When the round trip restores a line. */
  lemma DeactivateActivateLine(line: string, milestone: string, offset: nat)
    requires var d := HandleDeactivateLine(line, offset);
             d.Some? && HandleActivateLine(d.value.line, milestone, offset).Some?
    ensures HandleActivateLine(HandleDeactivateLine(line, offset).value.line, milestone, offset).value.line == line
       <==> Restored(line, milestone, offset)
  {
    hide WithMilestone, Commented, Uncommented, WrittenBefore;
    if Commented(line) {
      UncommentedIs(line, offset);
      if CommentAt(line, offset) {
        InsertedBack(line, offset);
        WrittenLikeInserted(Uncommented(line, offset), offset, milestone);
      }
    } else if Blank(line[..offset]) {
      CommentThenUncomment(line, offset);
    } else {
      CommentBehindText(line, offset);
      WrittenLikeInserted(line, offset, milestone);
    }
  }

  /** For an indented line: not commented at the offset, and the milestone is the given one. */
  lemma IndentedIsRestored(line: string, milestone: string, offset: nat)
    requires Indented(line, offset)
    ensures Restored(line, milestone, offset) <==> !CommentAt(line, offset) && WithMilestone(line, milestone) == line
  {
    hide WithMilestone, Commented, LastIndex;
    if CommentAt(line, offset) {
      CommentAtOffset(line, offset);
      UncommentedIs(line, offset);
      var u := Uncommented(line, offset);
      var i := LastIndex(u, PROPERTY);
      assert forall j :: 0 <= j < offset ==> u[j] == line[j] == ' ';
      if i != -1 {
        PropertyStartsWithM(u, i);
      }
    }
  }

  /** Activating and deactivating again restores the line. */
  predicate Reactivated(line: string, milestone: string, offset: nat) {
    && offset <= |line|
    && var bare := Bare(line, offset);
       var written := WithMilestone(bare, milestone);
       if !Commented(line) then CommentAt(line, offset) && written == Uncommented(line, offset)
       else if Commented(bare) then written == line
       else written == bare
  }

  /** When the round trip in the other order restores a line. */
  lemma ActivateDeactivateLine(line: string, milestone: string, offset: nat)
    requires var a := HandleActivateLine(line, milestone, offset);
             a.Some? && HandleDeactivateLine(a.value.line, offset).Some?
    ensures HandleDeactivateLine(HandleActivateLine(line, milestone, offset).value.line, offset).value.line == line
       <==> Reactivated(line, milestone, offset)
  {
    hide WithMilestone, Commented, Uncommented;
    var bare := Bare(line, offset);
    var written := WithMilestone(bare, milestone);
    MilestoneKeepsComment(bare, milestone);
    if !Commented(bare) {
      assert offset <= |written|;
      InsertedIs(written, line, offset);
      if offset <= |line| {
        UncommentedIs(line, offset);
      }
    }
  }

  /** A text is another one with a comment inserted iff it has a comment there and is the other without it. */
  lemma InsertedIs(a: string, line: string, offset: nat)
    requires offset <= |a|
    ensures Inserted(a, offset) == line <==> offset <= |line| && CommentAt(line, offset) && Uncommented(line, offset) == a
  {
    if Inserted(a, offset) == line {
      assert line[offset..] == COMMENT + a[offset..] && line[..offset] == a[..offset];
      UncommentedIs(line, offset);
      assert a == a[..offset] + a[offset..];
    }
    if offset <= |line| && CommentAt(line, offset) && Uncommented(line, offset) == a {
      InsertedBack(line, offset);
    }
  }

  /** For a line commented exactly once, at the offset: the milestone is the given one. */
  lemma CommentedOnceIsReactivated(line: string, milestone: string, offset: nat)
    requires offset <= |line| && Commented(line) && !Commented(Uncommented(line, offset))
    ensures Reactivated(line, milestone, offset) <==> WithMilestone(Uncommented(line, offset), milestone) == Uncommented(line, offset)
  {
    hide WithMilestone, Commented, Uncommented;
  }

  // ---------- Second runs and flags ----------

  /** Lines on which a second run with the same milestone has nothing left to do. */
  predicate Settles(line: string, milestone: string, offset: nat) {
    if milestone == "" then
      Commented(line) || (offset <= |line| && Commented(Inserted(line, offset)))
    else
      && (Commented(line) ==> offset <= |line|)
      && !Commented(Bare(line, offset))
      && (Findable(milestone) || LastIndex(Bare(line, offset), PROPERTY) == -1)
  }

  /** Once handled, a line is reported unchanged by a second run iff it settles. */
  lemma SecondRunOnLine(line: string, milestone: string, offset: nat)
    requires HandleLine(line, milestone, offset).Some?
    ensures var n := HandleLine(line, milestone, offset).value.line;
            HandleLine(n, milestone, offset) == Some(Changed(n, false)) <==> Settles(line, milestone, offset)
  {
    hide WithMilestone, Commented, Uncommented, Findable, LastIndex;
    if milestone != "" {
      MilestoneKeepsComment(Bare(line, offset), milestone);
      MilestoneIsStable(Bare(line, offset), milestone);
    }
  }

  lemma IndentedSettles(line: string, offset: nat)
    requires Indented(line, offset)
    ensures Settles(line, "", offset)
  {
    CommentThenUncomment(line, offset);
  }

  /** The change flag is set although the line stays the same exactly for comments away from the offset or in the milestone text. */
  lemma FlagWithoutDifference(line: string, milestone: string, offset: nat)
    ensures HandleActivateLine(line, milestone, offset) == Some(Changed(line, true))
       <==> Commented(line) && offset <= |line|
            && if CommentAt(line, offset) then WrittenBefore(Uncommented(line, offset), offset, line, milestone)
               else WithMilestone(line, milestone) == line
  {
    hide WithMilestone, Commented, Uncommented, WrittenBefore;
    if Commented(line) && offset <= |line| {
      UncommentedIs(line, offset);
      if CommentAt(line, offset) {
        InsertedBack(line, offset);
        WrittenLikeInserted(Uncommented(line, offset), offset, milestone);
      }
    }
  }

  // ---------- Lines that turn into markers ----------

  predicate IsMarker(text: string, id: string) {
    text == StartMarker(id) || text == EndMarker(id)
  }

  /** The text line becomes a section marker. */
  predicate Turns(line: string, id: string, milestone: string, offset: nat) {
    if milestone == "" then
      !Commented(line) && offset <= |line| && Blank(line[..offset]) && IsMarker(COMMENT + TrimRight(line[offset..]), id)
    else
      && (Commented(line) ==> offset <= |line|)
      && var bare := Bare(line, offset);
         var i := LastIndex(bare, PROPERTY);
         if i != -1 then IsMarker(TrimLeft(bare[..i + |PROPERTY|]) + TrimRight(" " + milestone), id)
         else Commented(line) && CommentAt(line, offset) && IsMarker(Trim(bare), id)
  }

  lemma MarkerIsCommented(text: string, id: string)
    requires IsMarker(text, id)
    ensures COMMENT <= text && |text| > 2 && text[|text| - 1] == '>'
  {
  }

  lemma {:induction false} TrimRightOfSum(a: string, b: string)
    ensures TrimRight(a + b) == if TrimRight(b) == "" then TrimRight(a) else a + TrimRight(b)
  {
    if b == "" {
      assert a + b == a;
    } else {
      var front := b[..|b| - 1];
      assert (a + b)[..|a + b| - 1] == a + front;
      if b[|b| - 1] == ' ' {
        TrimRightOfSum(a, front);
      }
    }
  }

  lemma {:induction false} TrimLeftOfSum(a: string, b: string)
    requires TrimLeft(a) != ""
    ensures TrimLeft(a + b) == TrimLeft(a) + b
  {
    assert (a + b)[0] == a[0];
    if a[0] == ' ' {
      assert (a + b)[1..] == a[1..] + b;
      TrimLeftOfSum(a[1..], b);
    }
  }

  /** A trimmed text that is a marker starts a commented line. */
  lemma TrimmedMarkerIsCommented(line: string, id: string)
    requires IsMarker(Trim(line), id)
    ensures Commented(line)
  {
    hide TrimLeft, TrimRight, IsMarker;
    MarkerIsCommented(Trim(line), id);
    var t := TrimLeft(line);
    assert Trim(line) == t[..|Trim(line)|];
  }

  lemma CommentTurns(line: string, id: string, offset: nat)
    requires offset <= |line| && !Commented(line)
    ensures IsMarker(Trim(Inserted(line, offset)), id)
       <==> Blank(line[..offset]) && IsMarker(COMMENT + TrimRight(line[offset..]), id)
  {
    hide IsMarker, Commented, TrimRight, TrimLeft;
    if Blank(line[..offset]) {
      var d := Inserted(line, offset);
      assert d[..offset] == line[..offset] && d[offset..] == COMMENT + line[offset..];
      TrimLeftIs(d, offset);
      TrimRightOfSum(COMMENT, line[offset..]);
      CommentIsNoMarker(id);
      assert COMMENT + "" == COMMENT;
    } else {
      if IsMarker(Trim(Inserted(line, offset)), id) {
        TrimmedMarkerIsCommented(Inserted(line, offset), id);
      }
      CommentBehindText(line, offset);
    }
  }

  lemma CommentIsNoMarker(id: string)
    ensures !IsMarker(COMMENT, id) && !IsMarker(TrimRight(COMMENT), id)
  {
    assert |StartMarker(id)| > 2 && |EndMarker(id)| > 2;
  }

  lemma WithMilestoneIs(bare: string, milestone: string)
    requires LastIndex(bare, PROPERTY) != -1
    ensures WithMilestone(bare, milestone) == bare[..LastIndex(bare, PROPERTY) + |PROPERTY|] + (" " + milestone)
  {
    hide LastIndex;
  }

  lemma PropertyEnds(bare: string, i: nat)
    requires OccursAt(bare, PROPERTY, i)
    ensures bare[i] != ' ' && bare[i + |PROPERTY| - 1] != ' '
  {
    assert bare[i..i + |PROPERTY|][0] == bare[i] && bare[i..i + |PROPERTY|][|PROPERTY| - 1] == bare[i + |PROPERTY| - 1];
  }

  lemma MilestoneTurns(bare: string, milestone: string)
    requires LastIndex(bare, PROPERTY) != -1
    ensures Trim(WithMilestone(bare, milestone))
         == TrimLeft(bare[..LastIndex(bare, PROPERTY) + |PROPERTY|]) + TrimRight(" " + milestone)
  {
    hide LastIndex, TrimLeft, TrimRight, IsMarker, WithMilestone, Trim;
    var i := LastIndex(bare, PROPERTY);
    var head := bare[..i + |PROPERTY|];
    PropertyEnds(bare, i);
    WrittenTrims(head, i, milestone);
    WithMilestoneIs(bare, milestone);
  }

  lemma WrittenTrims(head: string, i: nat, milestone: string)
    requires i < |head| && head[i] != ' ' && head[|head| - 1] != ' '
    ensures Trim(head + (" " + milestone)) == TrimLeft(head) + TrimRight(" " + milestone)
  {
    hide TrimLeft, TrimRight;
    var t := TrimLeft(head);
    assert t != "";
    TrimLeftOfSum(head, " " + milestone);
    TrimRightOfSum(t, " " + milestone);
    EndsVisibly(t);
    assert t + "" == t;
  }

  lemma EndsVisibly(s: string)
    requires s != "" && s[|s| - 1] != ' '
    ensures TrimRight(s) == s
  {
  }

  /** The handled line is a marker iff the line turns into one. */
  lemma TurnsIntoMarker(line: string, id: string, milestone: string, offset: nat)
    requires MarkOf(line, id) == TextMark && HandleLine(line, milestone, offset).Some?
    ensures MarkOf(HandleLine(line, milestone, offset).value.line, id) != TextMark <==> Turns(line, id, milestone, offset)
  {
    hide Commented, LastIndex, Trim, StartMarker, EndMarker, Uncommented, Blank;
    if milestone == "" {
      if !Commented(line) {
        CommentTurns(line, id, offset);
      }
    } else {
      var bare := Bare(line, offset);
      if LastIndex(bare, PROPERTY) != -1 {
        MilestoneTurns(bare, milestone);
      } else if Commented(line) {
        UncommentedIs(line, offset);
      }
    }
  }

  /** Unless the identifier contains `milestone:`, activation makes markers only of markers commented once more. */
  lemma OnlyCommentedMarkersTurn(line: string, id: string, milestone: string, offset: nat)
    requires milestone != "" && Turns(line, id, milestone, offset) && LastIndex(id, PROPERTY) == -1
    ensures Commented(line) && offset <= |line| && CommentAt(line, offset) && IsMarker(Trim(Uncommented(line, offset)), id)
  {
    hide LastIndex, TrimLeft, TrimRight, Commented, Trim;
    var bare := Bare(line, offset);
    var i := LastIndex(bare, PROPERTY);
    if i != -1 {
      var head := TrimLeft(bare[..i + |PROPERTY|]);
      var marker := head + TrimRight(" " + milestone);
      PropertyStartsWithM(bare, i);
      var q := |head| - |PROPERTY|;
      TrimLeftKeeps(bare[..i + |PROPERTY|], i);
      assert bare[..i + |PROPERTY|][i..] == PROPERTY;
      assert head[q..] == PROPERTY && marker[q..q + |PROPERTY|] == PROPERTY;
      MarkerHoldsProperty(marker, id, q);
    }
  }

  lemma TrimLeftKeeps(s: string, i: nat)
    requires i < |s| && s[i] != ' '
    ensures |TrimLeft(s)| >= |s| - i && TrimLeft(s)[|TrimLeft(s)| - (|s| - i)..] == s[i..]
  {
  }

  lemma MarkerHoldsProperty(marker: string, id: string, q: nat)
    requires IsMarker(marker, id) && OccursAt(marker, PROPERTY, q)
    ensures LastIndex(id, PROPERTY) != -1
  {
    hide LastIndex;
    var p := |marker| - |id| - |" -->"|;
    assert marker[q..q + |PROPERTY|][0] == 'm' && marker[q..q + |PROPERTY|][|PROPERTY| - 1] == ':';
    assert marker[q] == 'm' && marker[q + |PROPERTY| - 1] == ':';
    assert marker[p..p + |id|] == id;
    assert q >= p;
    assert q + |PROPERTY| <= p + |id|;
    assert id[q - p..q - p + |PROPERTY|] == marker[q..q + |PROPERTY|];
    assert OccursAt(id, PROPERTY, q - p);
  }

  /** Commenting a line can create a section marker. */
  lemma CommentCanCreateMarker()
    ensures var line := "<-- /start: X -->";
            MarkOf(line, "X") == TextMark && Turns(line, "X", "", 0)
  {
    var line := "<-- /start: X -->";
    assert StartMarker("X") == COMMENT + line && EndMarker("X")[0] == '#';
    assert line[0] == '<' && line[|line| - 1] == '>';
    assert Trim(line) == line && line[0..] == line;
  }

  // ---------- One file ----------

  /** Lines outside sections, markers and the number of lines are preserved. */
  lemma Frame(lines: seq<string>, id: string, milestone: string, out: seq<string>, changes: bool)
    requires Handled(lines, id, milestone, |lines|, out, changes)
    ensures |out| == |lines|
    ensures forall k :: 0 <= k < |lines| && !InSection(lines, id, k) ==> out[k] == lines[k]
  {
    hide MarkOf, HandleLine, CursorAt;
  }

  /** If anything differs, a change is reported. */
  lemma DifferenceIsReported(lines: seq<string>, id: string, milestone: string, out: seq<string>, changes: bool)
    requires Handled(lines, id, milestone, |lines|, out, changes)
    ensures out != lines ==> changes
  {
    hide MarkOf, HandleLine, CursorAt;
    if out != lines {
      var k :| 0 <= k < |lines| && out[k] != lines[k];
      ReportedUnchanged(lines[k], milestone, CursorAt(lines, id, k).offset);
      assert LineResult(lines, id, milestone, k) == Ok(Changed(out[k], true));
    }
  }

  /** No line of a section turns into a section marker. */
  ghost predicate NoneTurns(lines: seq<string>, id: string, milestone: string) {
    forall k :: 0 <= k < |lines| && InSection(lines, id, k) ==> !Turns(lines[k], id, milestone, CursorAt(lines, id, k).offset)
  }

  lemma LineMark(lines: seq<string>, id: string, milestone: string, out: seq<string>, changes: bool, k: nat)
    requires Handled(lines, id, milestone, |lines|, out, changes) && k < |lines|
    ensures |out| == |lines|
    ensures InSection(lines, id, k) ==>
              MarkOf(lines[k], id) == TextMark
              && (MarkOf(out[k], id) == TextMark <==> !Turns(lines[k], id, milestone, CursorAt(lines, id, k).offset))
    ensures !InSection(lines, id, k) ==> out[k] == lines[k]
  {
    hide MarkOf, HandleLine, CursorAt, Turns;
    assert LineResult(lines, id, milestone, k).Ok?;
    if InSection(lines, id, k) {
      TurnsIntoMarker(lines[k], id, milestone, CursorAt(lines, id, k).offset);
    }
  }

  /** The output has the same markers, so the same sections, iff no section line turns into one. */
  lemma SameMarkersIff(lines: seq<string>, id: string, milestone: string, out: seq<string>, changes: bool)
    requires Handled(lines, id, milestone, |lines|, out, changes)
    ensures Marks(out, id) == Marks(lines, id) <==> NoneTurns(lines, id, milestone)
  {
    hide MarkOf, HandleLine, CursorAt, Turns, Handled, InSection;
    forall k | 0 <= k < |lines|
      ensures |out| == |lines|
      ensures InSection(lines, id, k) ==>
                (MarkOf(out[k], id) == MarkOf(lines[k], id) <==> !Turns(lines[k], id, milestone, CursorAt(lines, id, k).offset))
      ensures !InSection(lines, id, k) ==> out[k] == lines[k]
    {
      LineMark(lines, id, milestone, out, changes, k);
    }
    FrameLength(lines, id, milestone, out, changes);
    if Marks(out, id) == Marks(lines, id) {
      forall k | 0 <= k < |lines|
        ensures MarkOf(out[k], id) == MarkOf(lines[k], id)
      {
        assert Marks(out, id)[k] == Marks(lines, id)[k];
      }
    }
  }

  lemma FrameLength(lines: seq<string>, id: string, milestone: string, out: seq<string>, changes: bool)
    requires Handled(lines, id, milestone, |lines|, out, changes)
    ensures |out| == |lines|
  {
  }

  /** With the same markers, and the start lines unchanged, every line is in the same section at the same offset. */
  lemma {:induction false} SameCursor(lines: seq<string>, id: string, milestone: string, out: seq<string>, changes: bool, k: nat)
    requires Handled(lines, id, milestone, |lines|, out, changes) && NoneTurns(lines, id, milestone) && k <= |lines|
    ensures |out| == |lines| && CursorAt(out, id, k) == CursorAt(lines, id, k)
    ensures k < |lines| ==> MarkOf(out[k], id) == MarkOf(lines[k], id) && InSection(out, id, k) == InSection(lines, id, k)
  {
    hide MarkOf, HandleLine, Turns, Handled;
    FrameLength(lines, id, milestone, out, changes);
    if k < |lines| {
      LineMark(lines, id, milestone, out, changes, k);
    }
    if k == 0 {
    } else {
      SameCursor(lines, id, milestone, out, changes, k - 1);
      LineMark(lines, id, milestone, out, changes, k - 1);
    }
  }

  /** Every section line settles at its section's offset. */
  ghost predicate AllLinesSettle(lines: seq<string>, id: string, milestone: string) {
    forall k :: 0 <= k < |lines| && InSection(lines, id, k) ==> Settles(lines[k], milestone, CursorAt(lines, id, k).offset)
  }

  lemma SettledLine(lines: seq<string>, id: string, milestone: string, out: seq<string>, changes: bool, k: nat)
    requires Handled(lines, id, milestone, |lines|, out, changes) && NoneTurns(lines, id, milestone) && k < |lines|
    ensures |out| == |lines|
    ensures LineResult(out, id, milestone, k) == Ok(Changed(out[k], false))
       <==> (InSection(lines, id, k) ==> Settles(lines[k], milestone, CursorAt(lines, id, k).offset))
  {
    hide MarkOf, HandleLine, Settles, Turns, CursorAt, NoneTurns;
    Frame(lines, id, milestone, out, changes);
    SameCursor(lines, id, milestone, out, changes, k);
    if InSection(lines, id, k) {
      SecondRunOnLine(lines[k], milestone, CursorAt(lines, id, k).offset);
    }
  }

  /** A run is quiet iff every line is reported unchanged. */
  lemma QuietIff(lines: seq<string>, id: string, milestone: string)
    ensures Handled(lines, id, milestone, |lines|, lines, false)
       <==> forall k :: 0 <= k < |lines| ==> LineResult(lines, id, milestone, k) == Ok(Changed(lines[k], false))
  {
    hide LineResult;
    if Handled(lines, id, milestone, |lines|, lines, false) {
      forall k | 0 <= k < |lines|
        ensures LineResult(lines, id, milestone, k) == Ok(Changed(lines[k], false))
      {
        assert LineResult(lines, id, milestone, k) != Ok(Changed(lines[k], true));
      }
    }
  }

  /**
   Idempotence: the output has the same sections and a second run with the same milestone completes on it
   without a change iff no section line turns into a marker and all of them settle.
   */
  lemma SecondRunIsQuietIff(lines: seq<string>, id: string, milestone: string, out: seq<string>, changes: bool)
    requires Handled(lines, id, milestone, |lines|, out, changes)
    ensures Marks(out, id) == Marks(lines, id) && Handled(out, id, milestone, |out|, out, false)
       <==> NoneTurns(lines, id, milestone) && AllLinesSettle(lines, id, milestone)
  {
    hide MarkOf, HandleLine, Settles, LineResult, Turns, CursorAt, InSection, NoneTurns, Handled, Marks;
    SameMarkersIff(lines, id, milestone, out, changes);
    FrameLength(lines, id, milestone, out, changes);
    QuietIff(out, id, milestone);
    if NoneTurns(lines, id, milestone) {
      forall k | 0 <= k < |lines|
        ensures LineResult(out, id, milestone, k) == Ok(Changed(out[k], false))
           <==> (InSection(lines, id, k) ==> Settles(lines[k], milestone, CursorAt(lines, id, k).offset))
      {
        SettledLine(lines, id, milestone, out, changes, k);
      }
    }
  }

  /** After a deactivation, an activation completes on line k iff a section line there reaches the offset. */
  lemma ActivationCompletesIff(lines: seq<string>, id: string, milestone: string, mid: seq<string>, c: bool, k: nat)
    requires Handled(lines, id, "", |lines|, mid, c) && NoneTurns(lines, id, "") && milestone != "" && k < |lines|
    ensures |mid| == |lines|
    ensures LineResult(mid, id, milestone, k).Ok? <==> (InSection(lines, id, k) ==> CursorAt(lines, id, k).offset <= |lines[k]|)
  {
    hide MarkOf, Turns, CursorAt, NoneTurns, WithMilestone, Commented;
    Frame(lines, id, "", mid, c);
    SameCursor(lines, id, "", mid, c, k);
    var o := CursorAt(lines, id, k).offset;
    if InSection(lines, id, k) && o <= |lines[k]| && !Commented(lines[k]) {
      assert |mid[k]| == |lines[k]| + |COMMENT|;
    }
  }

  /** Line k survives deactivation followed by activation. */
  ghost predicate Restorable(lines: seq<string>, id: string, milestone: string, k: nat)
    requires k < |lines|
  {
    InSection(lines, id, k) ==>
      var o := CursorAt(lines, id, k).offset; !Turns(lines[k], id, "", o) && Restored(lines[k], milestone, o)
  }

  ghost predicate Reactivatable(lines: seq<string>, id: string, milestone: string, k: nat)
    requires k < |lines|
  {
    InSection(lines, id, k) ==>
      var o := CursorAt(lines, id, k).offset; !Turns(lines[k], id, milestone, o) && Reactivated(lines[k], milestone, o)
  }

  /** A line that turned into a marker stays one, so it is not restored. */
  lemma MarkersStay(lines: seq<string>, id: string, first: string, second: string, mid: seq<string>, c: bool,
                    out: seq<string>, c': bool, k: nat)
    requires Handled(lines, id, first, |lines|, mid, c) && Handled(mid, id, second, |mid|, out, c')
    requires k < |lines| && InSection(lines, id, k) && Turns(lines[k], id, first, CursorAt(lines, id, k).offset)
    ensures |out| == |lines| && out[k] != lines[k]
  {
    hide MarkOf, HandleLine, Turns, CursorAt;
    LineMark(lines, id, first, mid, c, k);
    Frame(mid, id, second, out, c');
  }

  lemma RestoredLine(lines: seq<string>, id: string, milestone: string, mid: seq<string>, c: bool,
                     out: seq<string>, c': bool, k: nat)
    requires Handled(lines, id, "", |lines|, mid, c) && NoneTurns(lines, id, "")
    requires milestone != "" && Handled(mid, id, milestone, |mid|, out, c') && k < |lines|
    ensures |out| == |lines|
    ensures out[k] == lines[k] <==> (InSection(lines, id, k) ==> Restored(lines[k], milestone, CursorAt(lines, id, k).offset))
  {
    hide MarkOf, HandleActivateLine, HandleDeactivateLine, Turns, CursorAt, NoneTurns, Restored;
    Frame(lines, id, "", mid, c);
    Frame(mid, id, milestone, out, c');
    SameCursor(lines, id, "", mid, c, k);
    assert LineResult(lines, id, "", k).Ok? && LineResult(mid, id, milestone, k).Ok?;
    if InSection(lines, id, k) {
      DeactivateActivateLine(lines[k], milestone, CursorAt(lines, id, k).offset);
    }
  }

  /** Round trip: deactivating a file and activating it restores it iff every section line is restorable. */
  lemma DeactivateActivate(lines: seq<string>, id: string, milestone: string, mid: seq<string>, c: bool,
                           out: seq<string>, c': bool)
    requires Handled(lines, id, "", |lines|, mid, c) && milestone != "" && Handled(mid, id, milestone, |mid|, out, c')
    ensures out == lines <==> forall k :: 0 <= k < |lines| ==> Restorable(lines, id, milestone, k)
  {
    hide MarkOf, HandleLine, LineResult, Turns, Restored, CursorAt, InSection, Handled;
    FrameLength(lines, id, "", mid, c);
    FrameLength(mid, id, milestone, out, c');
    if NoneTurns(lines, id, "") {
      forall k | 0 <= k < |lines|
        ensures out[k] == lines[k] <==> Restorable(lines, id, milestone, k)
      {
        RestoredLine(lines, id, milestone, mid, c, out, c', k);
      }
    } else {
      var k :| 0 <= k < |lines| && InSection(lines, id, k) && Turns(lines[k], id, "", CursorAt(lines, id, k).offset);
      MarkersStay(lines, id, "", milestone, mid, c, out, c', k);
      assert !Restorable(lines, id, milestone, k);
    }
  }

  lemma RecommentedLine(lines: seq<string>, id: string, milestone: string, mid: seq<string>, c: bool,
                        out: seq<string>, c': bool, k: nat)
    requires milestone != "" && Handled(lines, id, milestone, |lines|, mid, c) && NoneTurns(lines, id, milestone)
    requires Handled(mid, id, "", |mid|, out, c') && k < |lines|
    ensures |out| == |lines|
    ensures out[k] == lines[k] <==> (InSection(lines, id, k) ==> Reactivated(lines[k], milestone, CursorAt(lines, id, k).offset))
  {
    hide MarkOf, HandleActivateLine, HandleDeactivateLine, Turns, CursorAt, NoneTurns, Reactivated;
    Frame(lines, id, milestone, mid, c);
    Frame(mid, id, "", out, c');
    SameCursor(lines, id, milestone, mid, c, k);
    assert LineResult(lines, id, milestone, k).Ok? && LineResult(mid, id, "", k).Ok?;
    if InSection(lines, id, k) {
      ActivateDeactivateLine(lines[k], milestone, CursorAt(lines, id, k).offset);
    }
  }

  /** The converse round trip. */
  lemma ActivateDeactivate(lines: seq<string>, id: string, milestone: string, mid: seq<string>, c: bool,
                           out: seq<string>, c': bool)
    requires milestone != "" && Handled(lines, id, milestone, |lines|, mid, c) && Handled(mid, id, "", |mid|, out, c')
    ensures out == lines <==> forall k :: 0 <= k < |lines| ==> Reactivatable(lines, id, milestone, k)
  {
    hide MarkOf, HandleLine, LineResult, Turns, Reactivated, CursorAt, InSection, Handled;
    FrameLength(lines, id, milestone, mid, c);
    FrameLength(mid, id, "", out, c');
    if NoneTurns(lines, id, milestone) {
      forall k | 0 <= k < |lines|
        ensures out[k] == lines[k] <==> Reactivatable(lines, id, milestone, k)
      {
        RecommentedLine(lines, id, milestone, mid, c, out, c', k);
      }
    } else {
      var k :| 0 <= k < |lines| && InSection(lines, id, k) && Turns(lines[k], id, milestone, CursorAt(lines, id, k).offset);
      MarkersStay(lines, id, milestone, "", mid, c, out, c', k);
      assert !Reactivatable(lines, id, milestone, k);
    }
  }

  // ---------- Lines as they are written ----------

  /** The line is the text with nothing but spaces around it. */
  ghost predicate Surrounds(line: string, text: string) {
    exists n: nat :: n + |text| <= |line| && SurroundsAt(line, text, n)
  }

  ghost predicate SurroundsAt(line: string, text: string, n: nat)
    requires n + |text| <= |line|
  {
    line[n..n + |text|] == text && Blank(line[..n]) && Blank(line[n + |text|..])
  }

  lemma TrimmedIsSurrounded(line: string)
    ensures Surrounds(line, Trim(line))
  {
    hide TrimLeft, TrimRight;
    var left, t := TrimLeft(line), Trim(line);
    var n := |line| - |left|;
    assert line[n..n + |t|] == left[..|t|] && line[n + |t|..] == left[|t|..];
    assert SurroundsAt(line, t, n);
  }

  /** Nothing else is recognised as a marker. */
  lemma OnlyMarkersAreRecognised(line: string, id: string)
    ensures MarkOf(line, id) == StartMark ==> Surrounds(line, "# <-- /start: " + id + " -->")
    ensures MarkOf(line, id) == EndMark ==> Surrounds(line, "# <-- /end: " + id + " -->")
  {
    hide Trim, Surrounds;
    TrimmedIsSurrounded(line);
  }

  /** The marker lines of a section, with any number of spaces around them. */
  lemma MarkersAsWritten(indent: string, trailing: string, id: string)
    requires Blank(indent) && Blank(trailing)
    ensures MarkOf(indent + "# <-- /start: " + id + " -->" + trailing, id) == StartMark
    ensures MarkOf(indent + "# <-- /end: " + id + " -->" + trailing, id) == EndMark
  {
    hide TrimLeft, TrimRight;
    assert indent + "# <-- /start: " + id + " -->" + trailing == indent + StartMarker(id) + trailing;
    assert indent + "# <-- /end: " + id + " -->" + trailing == indent + EndMarker(id) + trailing;
    MarkerIsTrimmed(indent, StartMarker(id), trailing, id);
    MarkerIsTrimmed(indent, EndMarker(id), trailing, id);
    assert StartMarker(id)[7] != EndMarker(id)[7];
  }

  lemma MarkerIsTrimmed(indent: string, marker: string, trailing: string, id: string)
    requires Blank(indent) && Blank(trailing) && IsMarker(marker, id)
    ensures Trim(indent + marker + trailing) == marker
  {
    hide TrimLeft, TrimRight, IsMarker;
    MarkerIsCommented(marker, id);
    var line := indent + marker + trailing;
    TrimLeftIs(line, |indent|);
    assert line[|indent|..] == marker + trailing;
    TrimRightOfSum(marker, trailing);
    EndsVisibly(marker);
    BlankTrims(trailing);
  }

  lemma {:induction false} BlankTrims(s: string)
    requires Blank(s)
    ensures TrimRight(s) == ""
  {
    if s == "" {
    } else {
      BlankTrims(s[..|s| - 1]);
    }
  }

  /** The last `milestone:` is the one after which there is no other. */
  lemma PropertyIsLast(before: string, after: string)
    requires LastIndex(after, PROPERTY) == -1
    ensures LastIndex(before + PROPERTY + after, PROPERTY) == |before|
  {
    hide LastIndex;
    var r, i := before + PROPERTY + after, |before|;
    assert r[i..i + |PROPERTY|] == PROPERTY;
    PropertyStartsWithM(r, i);
    forall j | i < j <= |r| - |PROPERTY|
      ensures !OccursAt(r, PROPERTY, j)
    {
      if OccursAt(r, PROPERTY, j) {
        PropertyStartsWithM(r, j);
      }
      if j >= i + |PROPERTY| {
        OccursInTail(before + PROPERTY, after, PROPERTY, j);
      }
    }
    LastIndexIs(r, PROPERTY, i);
  }

  /** The text after the last property becomes the given milestone. */
  lemma MilestoneIsReplaced(before: string, was: string, milestone: string)
    requires LastIndex(was, PROPERTY) == -1
    ensures WithMilestone(before + "milestone:" + was, milestone) == before + "milestone: " + milestone
  {
    hide LastIndex;
    var bare := before + PROPERTY + was;
    PropertyIsLast(before, was);
    WithMilestoneIs(bare, milestone);
    assert bare[..|before| + |PROPERTY|] == before + PROPERTY;
    assert before + PROPERTY + (" " + milestone) == before + "milestone: " + milestone;
  }

  lemma CommentIsTaken(indent: string, rest: string)
    requires Blank(indent)
    ensures var line := indent + ("# " + rest);
            Commented(line) && |indent| <= |line| && Uncommented(line, |indent|) == indent + rest
  {
    hide TrimLeft;
    var line := indent + ("# " + rest);
    assert line[..|indent|] == indent && line[|indent|..] == COMMENT + rest;
    CommentAtOffset(line, |indent|);
    UncommentedIs(line, |indent|);
    assert line[|indent| + 2..] == rest;
  }

  /** A commented line with a milestone loses its comment and gets the new milestone. */
  lemma ActivatedAsWritten(indent: string, key: string, was: string, milestone: string)
    requires Blank(indent) && LastIndex(was, PROPERTY) == -1
    ensures HandleActivateLine(indent + ("# " + (key + "milestone:" + was)), milestone, |indent|)
         == Some(Changed(indent + key + "milestone: " + milestone, true))
  {
    CommentIsTaken(indent, key + "milestone:" + was);
    assert indent + (key + "milestone:" + was) == indent + key + "milestone:" + was;
    hide LastIndex, Commented, Uncommented, WithMilestone;
    MilestoneIsReplaced(indent + key, was, milestone);
  }

  /** After spaces only, the line begins with a comment. */
  ghost predicate HasComment(line: string) {
    exists n: nat :: n <= |line| && BeginsAfter(line, n)
  }

  ghost predicate BeginsAfter(line: string, n: nat)
    requires n <= |line|
  {
    Blank(line[..n]) && "# " <= line[n..]
  }

  lemma CommentedIff(line: string)
    ensures Commented(line) <==> HasComment(line)
  {
    var t := TrimLeft(line);
    if Commented(line) {
      assert BeginsAfter(line, |line| - |t|);
    }
    if n: nat :| n <= |line| && BeginsAfter(line, n) {
      assert line[n] == line[n..][0] == '#';
      TrimLeftIs(line, n);
    }
  }

  /** Deactivation puts a comment at the offset of any line that reaches it and is not commented anywhere. */
  lemma DeactivatedAsWritten(before: string, rest: string)
    ensures HandleDeactivateLine(before + rest, |before|)
         == Some(if HasComment(before + rest) then Changed(before + rest, false) else Changed(before + "# " + rest, true))
  {
    hide Commented, HasComment;
    var line := before + rest;
    CommentedIff(line);
    assert line[..|before|] == before && line[|before|..] == rest;
  }

  /** Exactly the lines that do not reach the offset cannot be handled: commented ones by activation, others by deactivation. */
  lemma HandlingFailsIff(line: string, milestone: string, offset: nat)
    ensures HandleLine(line, milestone, offset) == None <==> |line| < offset && (milestone != "" <==> HasComment(line))
  {
    hide Commented, HasComment;
    CommentedIff(line);
  }
}
