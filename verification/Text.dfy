/** The few operations of Go's `strings` package that the models need. */
module Text {

  function TrimLeft(s: string): (t: string)
    ensures |t| <= |s| && t == s[|s| - |t|..]
    ensures forall i :: 0 <= i < |s| - |t| ==> s[i] == ' '
    ensures t != "" ==> t[0] != ' '
  {
    if s != "" && s[0] == ' ' then TrimLeft(s[1..]) else s
  }

  function TrimRight(s: string): (t: string)
    ensures |t| <= |s| && t == s[..|t|]
    ensures forall i :: |t| <= i < |s| ==> s[i] == ' '
    ensures t != "" ==> t[|t| - 1] != ' '
  {
    if s != "" && s[|s| - 1] == ' ' then TrimRight(s[..|s| - 1]) else s
  }

  function Trim(s: string): string {
    TrimRight(TrimLeft(s))
  }

  /** p occurs in s at position i. */
  predicate OccursAt(s: string, p: string, i: int) {
    0 <= i <= |s| - |p| && s[i..i + |p|] == p
  }

  /** The first position not before `from` at which p occurs, or -1. */
  function IndexFrom(s: string, p: string, from: nat): (i: int)
    requires from <= |s|
    ensures i == -1 || (i >= from && OccursAt(s, p, i))
    ensures forall j :: from <= j < (if i == -1 then |s| + 1 else i) ==> !OccursAt(s, p, j)
    decreases |s| - from
  {
    if OccursAt(s, p, from) then from
    else if from == |s| then -1
    else IndexFrom(s, p, from + 1)
  }

  function Index(s: string, p: string): int {
    IndexFrom(s, p, 0)
  }

  /** The last position before `end` at which p occurs, or -1. */
  function LastIndexBefore(s: string, p: string, end: nat): (i: int)
    ensures i == -1 || (i < end && OccursAt(s, p, i))
    ensures forall j :: i < j < end ==> !OccursAt(s, p, j)
  {
    if end == 0 then -1
    else if OccursAt(s, p, end - 1) then end - 1
    else LastIndexBefore(s, p, end - 1)
  }

  function LastIndex(s: string, p: string): (i: int)
    ensures i == -1 || OccursAt(s, p, i)
    ensures forall j :: OccursAt(s, p, j) ==> j <= i
  {
    LastIndexBefore(s, p, |s| + 1)
  }

  function TrimPrefix(s: string, p: string): string {
    if p <= s then s[|p|..] else s
  }

  predicate Blank(s: string) {
    forall i :: 0 <= i < |s| ==> s[i] == ' '
  }

  lemma {:induction false} TrimLeftOfBlank(blank: string, s: string)
    requires Blank(blank)
    ensures TrimLeft(blank + s) == TrimLeft(s)
  {
    if blank == "" {
      assert blank + s == s;
    } else {
      assert (blank + s)[1..] == blank[1..] + s;
      TrimLeftOfBlank(blank[1..], s);
    }
  }

  lemma LastIndexIs(s: string, p: string, i: nat)
    requires OccursAt(s, p, i)
    requires forall j :: i < j <= |s| - |p| ==> !OccursAt(s, p, j)
    ensures LastIndex(s, p) == i
  {
  }

  /** A trimmed line occurs in the line itself. */
  lemma TrimOccurs(s: string)
    ensures Index(s, Trim(s)) != -1
  {
    hide TrimLeft, TrimRight, IndexFrom;
    var k := |s| - |TrimLeft(s)|;
    var n := |Trim(s)|;
    assert s[k..k + n] == TrimLeft(s)[..n];
    assert OccursAt(s, Trim(s), k);
  }

  // ---------- Decimal digits ----------

  predicate IsDigit(c: char) {
    '0' <= c <= '9'
  }

  predicate Digits(s: string) {
    s != "" && forall i :: 0 <= i < |s| ==> IsDigit(s[i])
  }

  function Pow10(n: nat): (p: nat)
    ensures p >= 1
  {
    if n == 0 then 1 else 10 * Pow10(n - 1)
  }

  function DigitValue(c: char): (d: nat)
    requires IsDigit(c)
    ensures d <= 9
  {
    c as int - '0' as int
  }

  /** The number that decimal digits denote. */
  function Value(s: string): (v: nat)
    requires forall i :: 0 <= i < |s| ==> IsDigit(s[i])
  {
    if s == "" then 0 else DigitValue(s[0]) * Pow10(|s| - 1) + Value(s[1..])
  }
}
