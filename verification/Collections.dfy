/** The few facts about sequences and sets that several models share. */
module Collections {

  function SetOf<T>(s: seq<T>): set<T> {
    set x | x in s
  }

  /** An element at two positions occurs at least twice. */
  lemma SeenTwice<T>(s: seq<T>, i: nat, j: nat, x: T)
    requires i < j < |s| && s[i] == x && s[j] == x
    ensures multiset(s)[x] >= 2
  {
    assert s == s[..j] + s[j..];
    assert s[..j][i] == x && s[j..][0] == x;
    assert x in multiset(s[..j]) && x in multiset(s[j..]);
  }
}
