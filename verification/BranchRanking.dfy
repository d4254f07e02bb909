/**
 How the branch-cleaner ranks release branches: major versions as strings, minor versions as numbers,
 and when that is the numeric order.
 */
module BranchRanking {
  import opened Sorting
  import opened Text

  const PREFIX := "release-v"
  const MAX_INT := 0x7fff_ffff_ffff_ffff

  // ---------- Parsing ----------

  function Split(s: string, c: char): (parts: seq<string>)
    ensures |parts| >= 1
    ensures |parts| == 1 <==> c !in s
  {
    if s == "" then [""]
    else if s[0] == c then [""] + Split(s[1..], c)
    else
      var rest := Split(s[1..], c);
      [[s[0]] + rest[0]] + rest[1..]
  }

  lemma {:induction false} SplitAtFirst(s: string, c: char, t: string)
    requires c !in s
    ensures Split(s + [c] + t, c) == [s] + Split(t, c)
  {
    var all := s + [c] + t;
    if s == "" {
      assert all[1..] == t;
    } else {
      assert all[1..] == s[1..] + [c] + t;
      SplitAtFirst(s[1..], c, t);
      assert s == [s[0]] + s[1..];
    }
  }

  /** Go's Atoi with the error dropped: 0 for anything but an integer, the nearest bound for one out of range. */
  function Atoi(s: string): int {
    if Digits(s) then (if Value(s) > MAX_INT then MAX_INT else Value(s))
    else if s != "" && s[0] == '+' && Digits(s[1..]) then (if Value(s[1..]) > MAX_INT then MAX_INT else Value(s[1..]))
    else if s != "" && s[0] == '-' && Digits(s[1..]) then (if Value(s[1..]) > MAX_INT + 1 then 0 - MAX_INT - 1 else 0 - Value(s[1..]))
    else 0
  }

  // ---------- The comparison ----------

  function Parts(name: string): seq<string> {
    Split(TrimPrefix(name, PREFIX), '.')
  }

  /** Comparing a name without a second part crashes the program. */
  predicate Comparable(name: string) {
    |Parts(name)| > 1
  }

  function Minor(name: string): int {
    if Comparable(name) then Atoi(Parts(name)[1]) else 0
  }

  /** The branch is sorted before the other. */
  predicate Higher(a: string, b: string) {
    if Parts(a)[0] == Parts(b)[0] then Minor(a) > Minor(b) else Before(Parts(b)[0], Parts(a)[0])
  }

  lemma RankingIsAnOrder()
    ensures StrictWeakOrder(Higher)
  {
    hide Split, Before, Minor;
    StringsAreOrdered();
  }

  // ---------- What the ranking looks at ----------

  /** The first two parts of a name, without the prefix; what follows a second dot does not matter. */
  ghost predicate NameParts(name: string, major: string, minor: string) {
    var body := if "release-v" <= name then name[9..] else name;
    '.' !in major && '.' !in minor && (body == major + "." + minor || major + "." + minor + "." <= body)
  }

  lemma PartsAre(name: string, major: string, minor: string)
    requires NameParts(name, major, minor)
    ensures Comparable(name) && Parts(name)[0] == major && Parts(name)[1] == minor
  {
    hide Split;
    var body := TrimPrefix(name, PREFIX);
    if body == major + "." + minor {
      assert body == major + ['.'] + minor;
      SplitAtFirst(major, '.', minor);
      SplitWhole(minor, '.');
    } else {
      var rest := body[|major| + |minor| + 2..];
      assert body == major + ['.'] + (minor + ['.'] + rest);
      SplitAtFirst(major, '.', minor + ['.'] + rest);
      SplitAtFirst(minor, '.', rest);
    }
  }

  lemma {:induction false} FirstPart(s: string, c: char) returns (t: string)
    requires c in s
    ensures c !in Split(s, c)[0] && s == Split(s, c)[0] + [c] + t && Split(s, c) == [Split(s, c)[0]] + Split(t, c)
  {
    if s[0] == c {
      t := s[1..];
    } else {
      t := FirstPart(s[1..], c);
    }
  }

  /** Exactly the names with a dot after the prefix have the two parts that a comparison needs. */
  lemma ComparableIff(name: string)
    ensures Comparable(name) <==> exists major, minor :: NameParts(name, major, minor)
  {
    hide Split;
    var body := TrimPrefix(name, PREFIX);
    forall major, minor | NameParts(name, major, minor)
      ensures Comparable(name)
    {
      PartsAre(name, major, minor);
    }
    if Comparable(name) {
      var t := FirstPart(body, '.');
      var major := Split(body, '.')[0];
      if '.' in t {
        var rest := FirstPart(t, '.');
        var minor := Split(t, '.')[0];
        assert body == major + "." + minor + "." + rest;
        assert NameParts(name, major, minor);
      } else {
        assert body == major + "." + t;
        assert NameParts(name, major, t);
      }
    }
  }

  /** Names are ranked by their first parts as strings, and for equal ones by their second parts as integers. */
  lemma RankingReads(a: string, m: string, i: string, b: string, n: string, j: string)
    requires NameParts(a, m, i) && NameParts(b, n, j)
    ensures Higher(a, b) <==> if m == n then Atoi(i) > Atoi(j) else Before(n, m)
  {
    hide NameParts, Parts, Comparable, Before, Atoi;
    PartsAre(a, m, i);
    PartsAre(b, n, j);
    MinorIs(a);
    MinorIs(b);
  }

  lemma MinorIs(name: string)
    requires Comparable(name)
    ensures Minor(name) == Atoi(Parts(name)[1])
  {
  }

  /** Digits with an optional sign are read as the number they denote, or as the nearest 64-bit integer. */
  lemma AtoiReads(s: string)
    requires Digits(s)
    ensures Atoi(s) == if Value(s) < 0x8000_0000_0000_0000 then Value(s) else 0x7fff_ffff_ffff_ffff
    ensures Atoi("+" + s) == Atoi(s)
    ensures Atoi("-" + s) == if Value(s) < 0x8000_0000_0000_0000 then 0 - Value(s) else 0 - 0x8000_0000_0000_0000
  {
    hide Value;
    var plus, minus := "+" + s, "-" + s;
    assert plus[0] == '+' && minus[0] == '-' && plus[1..] == s && minus[1..] == s;
  }

  /** Everything else is read as 0. */
  lemma AtoiDropsErrors(s: string)
    requires s == "" || s == "+" || s == "-" || (!IsDigit(s[0]) && s[0] !in "+-") || exists k :: 1 <= k < |s| && !IsDigit(s[k])
    ensures Atoi(s) == 0
  {
    if Digits(s) || (s != "" && Digits(s[1..])) {
      assert forall k :: 1 <= k < |s| ==> s[k] == s[1..][k - 1];
    }
  }

  // ---------- When the ranking is numeric ----------

  /** A number as it is usually written. */
  predicate Canonical(s: string) {
    Digits(s) && (|s| > 1 ==> s[0] != '0')
  }

  function ReleaseBranch(major: string, minor: string): string {
    PREFIX + major + "." + minor
  }

  lemma NoDotInDigits(s: string)
    requires Digits(s)
    ensures '.' !in s
  {
  }

  lemma PartsOfRelease(major: string, minor: string)
    requires Digits(major) && Digits(minor)
    ensures Parts(ReleaseBranch(major, minor)) == [major, minor]
  {
    hide Digits, Split;
    var name := ReleaseBranch(major, minor);
    assert name[|PREFIX|..] == major + ['.'] + minor;
    NoDotInDigits(major);
    NoDotInDigits(minor);
    SplitAtFirst(major, '.', minor);
    SplitWhole(minor, '.');
  }

  lemma {:induction false} SplitWhole(s: string, c: char)
    requires c !in s
    ensures Split(s, c) == [s]
  {
    if s == "" {
    } else {
      SplitWhole(s[1..], c);
      assert s == [s[0]] + s[1..];
    }
  }

  lemma {:induction false} ValueIsBounded(s: string)
    requires forall i :: 0 <= i < |s| ==> IsDigit(s[i])
    ensures Value(s) < Pow10(|s|)
  {
    if s == "" {
    } else {
      ValueIsBounded(s[1..]);
      Carry(DigitValue(s[0]), 10, Pow10(|s| - 1), Value(s[1..]));
    }
  }

  lemma Carry(d: nat, e: nat, p: nat, v: nat)
    requires d < e && v < p
    ensures d * p + v < e * p
  {
    assert (d + 1) * p <= e * p;
  }

  /** Digit strings of equal length compare like the numbers. */
  lemma {:induction false} EqualLengthIsNumeric(a: string, b: string)
    requires |a| == |b|
    requires forall i :: 0 <= i < |a| ==> IsDigit(a[i]) && IsDigit(b[i])
    ensures Before(a, b) <==> Value(a) < Value(b)
    ensures a == b <==> Value(a) == Value(b)
  {
    if a == "" {
    } else {
      var p := Pow10(|a| - 1);
      EqualLengthIsNumeric(a[1..], b[1..]);
      ValueIsBounded(a[1..]);
      ValueIsBounded(b[1..]);
      if a[0] < b[0] {
        Carry(DigitValue(a[0]), DigitValue(b[0]), p, Value(a[1..]));
      } else if b[0] < a[0] {
        Carry(DigitValue(b[0]), DigitValue(a[0]), p, Value(b[1..]));
      } else {
        assert a == [a[0]] + a[1..] && b == [b[0]] + b[1..];
      }
    }
  }

  lemma {:induction false} Pow10Grows(m: nat, n: nat)
    requires m <= n
    ensures Pow10(m) <= Pow10(n)
  {
    if m == n {
    } else {
      Pow10Grows(m, n - 1);
    }
  }

  lemma LongerIsGreater(a: string, b: string)
    requires Digits(a) && Canonical(b) && |a| < |b|
    ensures Value(a) < Value(b)
  {
    hide Pow10;
    ValueIsBounded(a);
    Pow10Grows(|a|, |b| - 1);
    Carry(0, DigitValue(b[0]), Pow10(|b| - 1), Value(a));
  }

  /** A string comes before a longer one iff it does not come after the longer one's beginning. */
  lemma {:induction false} BeforeLonger(a: string, b: string)
    requires |a| < |b|
    ensures Before(a, b) <==> !Before(b[..|a|], a)
  {
    if a == "" {
    } else {
      assert b[..|a|][1..] == b[1..][..|a| - 1];
      BeforeLonger(a[1..], b[1..]);
    }
  }

  /** The majors rank like numbers. */
  predicate MajorsAgree(m: string, n: string)
    requires Digits(m) && Digits(n)
  {
    || |m| == |n|
    || (|m| < |n| && Value(m) <= Value(n[..|m|]))
    || (|n| < |m| && Value(n) <= Value(m[..|n|]))
  }

  lemma MajorsInOrder(m: string, n: string)
    requires Canonical(m) && Canonical(n) && |m| < |n|
    ensures Before(m, n) <==> Value(m) <= Value(n[..|m|])
    ensures Before(n, m) <==> !(Value(m) <= Value(n[..|m|]))
    ensures Value(m) < Value(n)
  {
    hide Value, Before, Canonical;
    assert Digits(m) && Digits(n) by {
      CanonicalDigits(m);
      CanonicalDigits(n);
    }
    BeforeLonger(m, n);
    EqualLengthIsNumeric(n[..|m|], m);
    LongerIsGreater(m, n);
    BeforeLaws(m, n, "");
  }

  lemma CanonicalDigits(s: string)
    requires Canonical(s)
    ensures Digits(s)
  {
  }

  /**
   The ranking puts two release branches in numeric order iff their majors have equally many digits, or
   the longer major's leading digits are no smaller a number than the shorter major.
   */
  lemma RankingIsNumericIff(m: string, i: string, n: string, j: string)
    requires Canonical(m) && Canonical(i) && Canonical(n) && Canonical(j)
    requires Value(i) <= MAX_INT && Value(j) <= MAX_INT
    ensures (Higher(ReleaseBranch(m, i), ReleaseBranch(n, j))
             <==> Value(m) > Value(n) || (Value(m) == Value(n) && Value(i) > Value(j)))
       <==> MajorsAgree(m, n)
  {
    hide Value, Before, Split, ReleaseBranch;
    PartsOfRelease(m, i);
    PartsOfRelease(n, j);
    if |m| == |n| {
      EqualLengthIsNumeric(n, m);
    } else if |m| < |n| {
      MajorsInOrder(m, n);
    } else {
      MajorsInOrder(n, m);
    }
  }

  /** Version 9 outranks version 10. */
  lemma NineOutranksTen()
    ensures Higher(ReleaseBranch("9", "0"), ReleaseBranch("10", "0"))
  {
    PartsOfRelease("9", "0");
    PartsOfRelease("10", "0");
  }
}
