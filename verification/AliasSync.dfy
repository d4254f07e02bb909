/**
 The owners-aliases-bumper: flattening of the team tree into aliases, the changes an OWNERS_ALIASES file
 needs, and their application. Go maps and sets are visited in an arbitrary order.
 */
module AliasSync {
  import opened Collections
  import opened OrgTeams
  import opened Sorting
  import opened Text
  import opened Wrappers

  // ---------- Aliases of an organisation ----------

  /** The teams on the path, joined by slashes. */
  function Join(p: seq<string>): string
    requires p != []
  {
    if |p| == 1 then p[0] else p[0] + "/" + Join(p[1..])
  }

  /** u is the normalised login of a member or maintainer of a team whose prefixed path gives the alias. */
  ghost predicate Granted(norm: string -> string, teams: Teams, prefix: string, alias: string, u: string) {
    exists p :: GrantedBy(norm, teams, prefix, p, alias, u)
  }

  ghost predicate GrantedBy(norm: string -> string, teams: Teams, prefix: string, p: seq<string>, alias: string, u: string) {
    At(teams, p).Some? && alias == norm(prefix + Join(p)) && u in Normalize(norm, Logins(At(teams, p).value))
  }

  /** The same through the teams with these names only. */
  ghost predicate GrantedAmong(norm: string -> string, teams: Teams, keys: set<string>, prefix: string, alias: string, u: string) {
    exists p :: GrantedBy(norm, teams, prefix, p, alias, u) && p[0] in keys
  }

  class OrgAliases {
    var byAlias: map<string, set<string>>

    constructor ()
      ensures byAlias == map[]
    {
      byAlias := map[];
    }

    /** Nothing stands for an unknown alias; a known one always has members. */
    ghost predicate Has(alias: string, u: string)
      reads this
    {
      alias in byAlias && u in byAlias[alias]
    }

    ghost predicate Inhabited()
      reads this
    {
      forall alias :: alias in byAlias ==> byAlias[alias] != {}
    }

    method AddMember(alias: string, member: string)
      requires Inhabited()
      modifies this
      ensures Inhabited()
      ensures forall a, u :: Has(a, u) <==> old(Has(a, u)) || (a == alias && u == member)
    {
      if alias !in byAlias {
        byAlias := byAlias[alias := {member}];
        return;
      }
      byAlias := byAlias[alias := byAlias[alias] + {member}];
    }

    function GetMembers(alias: string): Option<set<string>>
      reads this
    {
      if alias in byAlias then Some(byAlias[alias]) else None
    }

    method AddMembers(norm: string -> string, alias: string, logins: seq<string>)
      requires Inhabited()
      modifies this
      ensures Inhabited()
      ensures forall a, u :: Has(a, u) <==> old(Has(a, u)) || (a == alias && u in Normalize(norm, SetOf(logins)))
    {
      for i := 0 to |logins|
        invariant Inhabited()
        invariant forall a, u :: Has(a, u) <==> old(Has(a, u)) || (a == alias && u in Normalize(norm, SetOf(logins[..i])))
      {
        assert logins[..i + 1] == logins[..i] + [logins[i]];
        AddMember(alias, norm(logins[i]));
      }
      assert logins[..|logins|] == logins;
    }

    /** Every team grants its alias to its people, at any depth and in any order. */
    method AddMembersFromTeams(norm: string -> string, teams: Teams, prefix: string)
      requires Inhabited()
      modifies this
      ensures Inhabited()
      ensures forall a, u :: Has(a, u) <==> old(Has(a, u)) || Granted(norm, teams, prefix, a, u)
      decreases teams
    {
      hide Granted, GrantedAmong, Has, Inhabited, Normalize, Logins;
      var keys := teams.byName.Keys;
      var rest := keys;
      forall a, u
        ensures !GrantedAmong(norm, teams, keys - rest, prefix, a, u)
      {
        NoTeamsGrantNothing(norm, teams, keys - rest, prefix, a, u);
      }
      while rest != {}
        invariant rest <= keys && Inhabited()
        invariant forall a, u :: Has(a, u) <==> old(Has(a, u)) || GrantedAmong(norm, teams, keys - rest, prefix, a, u)
        decreases |rest|
      {
        var teamName :| teamName in rest;
        var team := teams.byName[teamName];
        ghost var done := keys - rest;
        forall a, u
          ensures GrantedAmong(norm, teams, done + {teamName}, prefix, a, u)
             <==> GrantedAmong(norm, teams, done, prefix, a, u) || TeamGrants(norm, teamName, team, prefix, a, u)
        {
          OneMoreTeam(norm, teams, done, teamName, prefix, a, u);
        }
        assert keys - (rest - {teamName}) == done + {teamName};
        rest := rest - {teamName};
        AddMembersFromTeam(norm, teamName, team, prefix);
      }
      assert keys - rest == keys;
      forall a, u
        ensures GrantedAmong(norm, teams, keys, prefix, a, u) <==> Granted(norm, teams, prefix, a, u)
      {
        AllTeamsGrant(norm, teams, prefix, a, u);
      }
    }

    /** One round of the loop over the teams. */
    method AddMembersFromTeam(norm: string -> string, teamName: string, team: Team, prefix: string)
      requires Inhabited()
      modifies this
      ensures Inhabited()
      ensures forall a, u :: Has(a, u) <==> old(Has(a, u)) || TeamGrants(norm, teamName, team, prefix, a, u)
      decreases team
    {
      hide Granted, Has, Inhabited, Normalize, SetOf;
      AddMembers(norm, norm(prefix + teamName), team.members);
      AddMembers(norm, norm(prefix + teamName), team.maintainers);
      AddMembersFromTeams(norm, team.children, prefix + teamName + "/");
      NormalizeBoth(norm, SetOf(team.members), SetOf(team.maintainers));
    }
  }

  ghost predicate TeamGrants(norm: string -> string, teamName: string, team: Team, prefix: string, alias: string, u: string) {
    || (alias == norm(prefix + teamName) && u in Normalize(norm, Logins(team)))
    || Granted(norm, team.children, prefix + teamName + "/", alias, u)
  }

  lemma NormalizeBoth(norm: string -> string, s: set<string>, t: set<string>)
    ensures Normalize(norm, s + t) == Normalize(norm, s) + Normalize(norm, t)
  {
  }

  lemma NoTeamsGrantNothing(norm: string -> string, teams: Teams, keys: set<string>, prefix: string, a: string, u: string)
    requires keys == {}
    ensures !GrantedAmong(norm, teams, keys, prefix, a, u)
  {
  }

  lemma AllTeamsGrant(norm: string -> string, teams: Teams, prefix: string, a: string, u: string)
    ensures GrantedAmong(norm, teams, teams.byName.Keys, prefix, a, u) <==> Granted(norm, teams, prefix, a, u)
  {
    hide Normalize, Logins, Join;
  }

  lemma JoinBelow(prefix: string, k: string, q: seq<string>)
    requires q != []
    ensures prefix + Join([k] + q) == prefix + k + "/" + Join(q)
  {
    assert ([k] + q)[1..] == q;
  }

  lemma GrantedBelow(norm: string -> string, teams: Teams, k: string, prefix: string, q: seq<string>, a: string, u: string)
    requires k in teams.byName && q != []
    ensures GrantedBy(norm, teams, prefix, [k] + q, a, u)
       <==> GrantedBy(norm, teams.byName[k].children, prefix + k + "/", q, a, u)
  {
    hide Normalize, Logins, Join, At;
    Below(teams, k, q);
    JoinBelow(prefix, k, q);
  }

  lemma OneMoreTeam(norm: string -> string, teams: Teams, keys: set<string>, k: string, prefix: string, a: string, u: string)
    requires k in teams.byName && k !in keys
    ensures GrantedAmong(norm, teams, keys + {k}, prefix, a, u)
       <==> GrantedAmong(norm, teams, keys, prefix, a, u) || TeamGrants(norm, k, teams.byName[k], prefix, a, u)
  {
    hide Normalize, Logins;
    var team := teams.byName[k];
    if GrantedAmong(norm, teams, keys + {k}, prefix, a, u) {
      var p :| GrantedBy(norm, teams, prefix, p, a, u) && p[0] in keys + {k};
      if p[0] == k && |p| > 1 {
        assert p == [k] + p[1..];
        GrantedBelow(norm, teams, k, prefix, p[1..], a, u);
      }
    }
    if a == norm(prefix + k) && u in Normalize(norm, Logins(team)) {
      assert GrantedBy(norm, teams, prefix, [k], a, u);
    }
    if Granted(norm, team.children, prefix + k + "/", a, u) {
      var q :| GrantedBy(norm, team.children, prefix + k + "/", q, a, u);
      GrantedBelow(norm, teams, k, prefix, q, a, u);
      assert ([k] + q)[0] == k;
    }
  }

  /** The aliases of all organisations; asking for an unknown one creates it. */
  class FullOrgAliases {
    var aliases: map<string, OrgAliases>

    method GetConfig(org: string) returns (a: OrgAliases)
      modifies this
      ensures org in aliases && aliases[org] == a
      ensures old(org in aliases) ==> aliases == old(aliases)
      ensures old(org !in aliases) ==> fresh(a) && a.byAlias == map[] && aliases == old(aliases)[org := a]
    {
      if org !in aliases {
        a := new OrgAliases();
        aliases := aliases[org := a];
      }
      a := aliases[org];
    }

    /** What the organisation's aliases are for a reader. */
    ghost function Local(org: string): map<string, set<string>>
      reads this, aliases.Values
    {
      if org in aliases then aliases[org].byAlias else map[]
    }

    method GetMembersOf(org: string, alias: string) returns (members: Option<set<string>>)
      modifies this
      ensures members == if alias in old(Local(org)) then Some(old(Local(org))[alias]) else None
      ensures Local(org) == old(Local(org))
    {
      var config := GetConfig(org);
      members := config.GetMembers(alias);
    }

    /**
     The changes a repository's parsed file needs, none if it could not be fetched or parsed; the aliases
     themselves stay what they are for every reader.
     */
    method CalculateAliasChanges(org: string, file: Option<map<string, set<string>>>) returns (changes: map<string, Change>)
      modifies this
      ensures changes == if file.Some? then ChangesFor(old(Local(org)), file.value) else map[]
      ensures Local(org) == old(Local(org))
    {
      changes := map[];
      if file.None? {
        return;
      }
      var aliases := file.value;
      hide Local;
      ghost var local := Local(org);
      var rest := aliases.Keys;
      while rest != {}
        invariant rest <= aliases.Keys && Local(org) == local
        invariant changes == map a | a in ChangesFor(local, aliases) && a !in rest :: ChangesFor(local, aliases)[a]
        decreases |rest|
      {
        var alias :| alias in rest;
        rest := rest - {alias};
        var localMembers := GetMembersOf(org, alias);
        if localMembers.None? {
          continue;
        }
        var toBeAdded := localMembers.value - aliases[alias];
        var toBeDeleted := aliases[alias] - localMembers.value;
        if toBeAdded != {} || toBeDeleted != {} {
          changes := changes[alias := Change(toBeAdded, toBeDeleted)];
        }
      }
    }
  }

  // ---------- Changes ----------

  datatype Change = Change(add: set<string>, remove: set<string>)

  type File = map<string, seq<string>>

  /** Exactly the aliases known to both sides whose members differ, each with the two differences. */
  function ChangesFor(local: map<string, set<string>>, aliases: map<string, set<string>>): map<string, Change> {
    map a | a in aliases && a in local && local[a] != aliases[a] :: Change(local[a] - aliases[a], aliases[a] - local[a])
  }

  /** All occurrences of the value go; the rest keep their order. */
  function DeleteValue(s: seq<string>, value: string): (t: seq<string>)
    ensures forall u :: multiset(t)[u] == if u == value then 0 else multiset(s)[u]
  {
    if s == [] then []
    else
      assert s == [s[0]] + s[1..];
      (if s[0] == value then [] else [s[0]]) + DeleteValue(s[1..], value)
  }

  /** The list after a change: sorted, the removed logins gone, the added ones there once more. */
  ghost predicate Applied(was: seq<string>, c: Change, now: seq<string>) {
    && SortedBy(Before, now)
    && forall u :: multiset(now)[u] == (if u in c.remove then 0 else multiset(was)[u]) + (if u in c.add then 1 else 0)
  }

  method ApplyChange(was: seq<string>, c: Change) returns (now: seq<string>)
    ensures Applied(was, c, now)
  {
    now := was;
    var rest := c.remove;
    while rest != {}
      invariant rest <= c.remove
      invariant forall u :: multiset(now)[u] == if u in c.remove && u !in rest then 0 else multiset(was)[u]
      decreases |rest|
    {
      var user :| user in rest;
      rest := rest - {user};
      now := DeleteValue(now, user);
    }
    rest := c.add;
    ghost var kept := multiset(now);
    while rest != {}
      invariant rest <= c.add
      invariant forall u :: multiset(now)[u] == kept[u] + if u in c.add && u !in rest then 1 else 0
      decreases |rest|
    {
      var user :| user in rest;
      rest := rest - {user};
      now := now + [user];
    }
    StringsAreOrdered();
    SortingSucceeds(Before, now);
    now := InsertionSort(Before, now);
  }

  /** The file after the changes: aliases it does not have are skipped, all others stay as they are. */
  ghost predicate Written(file: File, changes: map<string, Change>, now: File) {
    && now.Keys == file.Keys
    && forall a :: a in file ==> if a in changes then Applied(file[a], changes[a], now[a]) else now[a] == file[a]
  }

  method WriteChanges(file: File, changes: map<string, Change>) returns (now: File)
    ensures Written(file, changes, now)
  {
    hide Applied;
    now := file;
    var rest := changes.Keys;
    while rest != {}
      invariant rest <= changes.Keys && now.Keys == file.Keys
      invariant forall a :: a in file ==> if a in changes && a !in rest then Applied(file[a], changes[a], now[a]) else now[a] == file[a]
      decreases |rest|
    {
      var alias :| alias in rest;
      rest := rest - {alias};
      if alias !in now {
        continue;
      }
      var members := ApplyChange(now[alias], changes[alias]);
      now := now[alias := members];
    }
  }

  /** The written file does not depend on the order in which maps and sets were visited. */
  lemma WrittenOnce(file: File, changes: map<string, Change>, now: File, other: File)
    requires Written(file, changes, now) && Written(file, changes, other)
    ensures now == other
  {
    StringsAreOrdered();
    forall a | a in file
      ensures now[a] == other[a]
    {
      if a in changes {
        forall u
          ensures multiset(now[a])[u] == multiset(other[a])[u]
        {
        }
        assert multiset(now[a]) == multiset(other[a]);
        SortedOnce(Before, now[a], other[a]);
      }
    }
  }

  // ---------- Normalisation ----------

  function Mapped(s: string, f: char -> char): string {
    seq(|s|, i requires 0 <= i < |s| => f(s[i]))
  }

  /** GitHub's normalisation: lower case, and without one leading @. */
  function NormLogin(s: string, lower: char -> char): string {
    TrimPrefix(Mapped(s, lower), "@")
  }

  /** Normalising a normalised login again changes it only by making it shorter. */
  ghost predicate Settling(norm: string -> string) {
    forall x :: norm(norm(x)) == norm(x) || |norm(norm(x))| < |norm(x)|
  }

  lemma NormLoginTwice(s: string, lower: char -> char)
    requires forall c :: lower(lower(c)) == lower(c)
    ensures NormLogin(NormLogin(s, lower), lower) == TrimPrefix(NormLogin(s, lower), "@")
  {
    var m, n := Mapped(s, lower), NormLogin(s, lower);
    var k := |m| - |n|;
    assert n == m[k..];
    forall i | 0 <= i < |n|
      ensures lower(n[i]) == n[i]
    {
      assert n[i] == m[k + i] == lower(s[k + i]);
    }
    assert Mapped(n, lower) == n;
  }

  lemma NormLoginSettles(norm: string -> string, lower: char -> char)
    requires forall c :: lower(lower(c)) == lower(c)
    requires forall s :: norm(s) == NormLogin(s, lower)
    ensures Settling(norm)
  {
    hide NormLogin;
    forall s
      ensures norm(norm(s)) == norm(s) || |norm(norm(s))| < |norm(s)|
    {
      NormLoginTwice(s, lower);
    }
  }

  lemma StartsWithAt(s: string)
    ensures "@" <= s <==> |s| > 0 && s[0] == '@'
  {
  }

  /** It leaves its own results alone, except for those of logins with two leading @. */
  lemma NormLoginIsStableIff(s: string, lower: char -> char)
    requires forall c :: lower(lower(c)) == lower(c) && (lower(c) == '@' <==> c == '@')
    ensures NormLogin(NormLogin(s, lower), lower) == NormLogin(s, lower) <==> !("@@" <= s)
  {
    NormLoginTwice(s, lower);
    var m := Mapped(s, lower);
    assert "@@" <= s <==> |s| > 1 && s[0] == '@' && s[1] == '@';
    StartsWithAt(m);
    if |s| > 0 && s[0] == '@' {
      assert m[0] == lower(s[0]);
      StartsWithAt(m[1..]);
      assert |s| > 1 ==> m[1..][0] == lower(s[1]);
    } else if |s| > 0 {
      assert m[0] == lower(s[0]) != '@';
    }
  }

  // ---------- Fixed point ----------

  /** No two keys of the file are the same alias, nor is one the normalised form of another. */
  ghost predicate NoCollision(norm: string -> string, file: File) {
    forall a, b :: a in file && b in file && (norm(a) == norm(b) || norm(a) == b) ==> a == b
  }

  /** What the owners parser makes of the file. */
  ghost function Parse(norm: string -> string, file: File): map<string, set<string>>
    requires NoCollision(norm, file)
  {
    map a | a in file :: norm(a) := Normalize(norm, SetOf(file[a]))
  }

  /** The aliases built from an organisation's teams. */
  ghost predicate BuiltFrom(norm: string -> string, teams: Teams, local: map<string, set<string>>) {
    && (forall a :: a in local ==> local[a] != {})
    && (forall a, u :: a in local && u in local[a] <==> Granted(norm, teams, "", a, u))
  }

  /** The file lists the people of this alias already, up to spelling. */
  ghost predicate InSync(norm: string -> string, local: map<string, set<string>>, file: File, a: string)
    requires a in file && norm(a) in local
  {
    Normalize(norm, SetOf(file[a])) == local[norm(a)]
  }

  /** Every login of the list that has to go is spelled normally, and so is every wanted one that it lacks. */
  ghost predicate EditableList(norm: string -> string, was: seq<string>, wanted: set<string>) {
    && (forall u :: u in was && norm(u) !in wanted ==> norm(u) == u)
    && (forall v :: v in wanted && v !in Normalize(norm, SetOf(was)) ==> norm(v) == v)
  }

  /** The key is spelled as it is looked up, and its list can be edited. */
  ghost predicate Editable(norm: string -> string, local: map<string, set<string>>, file: File, a: string)
    requires a in file && norm(a) in local
  {
    norm(a) == a && EditableList(norm, file[a], local[a])
  }

  /** Every element is the normalised form of something. */
  ghost predicate Normalised(norm: string -> string, s: set<string>) {
    forall u :: u in s ==> exists x :: norm(x) == u
  }

  lemma LocalLoginsAreNormalised(norm: string -> string, teams: Teams, local: map<string, set<string>>, a: string)
    requires BuiltFrom(norm, teams, local) && a in local
    ensures Normalised(norm, local[a])
  {
    forall u | u in local[a]
      ensures exists x :: norm(x) == u
    {
      assert Granted(norm, teams, "", a, u);
    }
  }

  lemma AppliedMembers(was: seq<string>, c: Change, now: seq<string>)
    requires Applied(was, c, now)
    ensures forall u :: u in now <==> (u in was && u !in c.remove) || u in c.add
  {
    forall u
      ensures u in now <==> (u in was && u !in c.remove) || u in c.add
    {
      assert u in now <==> u in multiset(now);
      assert u in was <==> u in multiset(was);
    }
  }

  /** The logins of the list after a change, as a set. */
  ghost function After(norm: string -> string, was: seq<string>, wanted: set<string>): set<string> {
    var listed := Normalize(norm, SetOf(was));
    (SetOf(was) - (listed - wanted)) + (wanted - listed)
  }

  ghost function Longer(s: set<string>, n: nat): set<string> {
    set w | w in s && |w| > n
  }

  lemma FewerLonger(s: set<string>, n: nat, x: string)
    requires x in s && |x| > n
    ensures Longer(s, |x|) < Longer(s, n)
  {
    assert x in Longer(s, n) && x !in Longer(s, |x|);
  }

  /** An abnormally spelled login that has to go either stays, or another, longer one has to go. */
  lemma {:induction false} AbnormalStays(norm: string -> string, was: seq<string>, wanted: set<string>, u: string)
    requires Settling(norm) && u in was && norm(u) !in wanted && norm(u) != u
    ensures !(Normalize(norm, After(norm, was, wanted)) <= wanted)
    decreases Longer(SetOf(was), |u|)
  {
    var after := After(norm, was, wanted);
    if u in after {
      assert norm(u) in Normalize(norm, after);
    } else {
      var x :| x in SetOf(was) && norm(x) == u;
      if x in after {
        assert norm(x) in Normalize(norm, after);
      } else {
        var y :| y in SetOf(was) && norm(y) == x;
        assert |u| < |x|;
        FewerLonger(SetOf(was), |u|, x);
        AbnormalStays(norm, was, wanted, x);
      }
    }
  }

  /** An abnormally spelled login that is added is read back differently, and nothing else is read as it. */
  lemma {:induction false} AbnormalIsLost(norm: string -> string, was: seq<string>, wanted: set<string>, v: string)
    requires Settling(norm) && Normalised(norm, wanted)
    requires v in wanted && v !in Normalize(norm, SetOf(was)) && norm(v) != v
    ensures !(wanted <= Normalize(norm, After(norm, was, wanted)))
    decreases Longer(wanted, |v|)
  {
    var after := After(norm, was, wanted);
    if v in Normalize(norm, after) {
      var z :| z in after && norm(z) == v;
      assert z in SetOf(was) ==> v in Normalize(norm, SetOf(was));
      var x :| norm(x) == z;
      assert norm(z) != z && |v| < |z|;
      FewerLonger(wanted, |v|, z);
      AbnormalIsLost(norm, was, wanted, z);
    }
  }

  /** An editable list is read back as the wanted logins. */
  lemma EditableSyncs(norm: string -> string, was: seq<string>, wanted: set<string>)
    requires EditableList(norm, was, wanted)
    ensures Normalize(norm, After(norm, was, wanted)) == wanted
  {
    var listed, after := Normalize(norm, SetOf(was)), After(norm, was, wanted);
    forall v | v in Normalize(norm, after)
      ensures v in wanted
    {
      var u :| u in after && norm(u) == v;
    }
    forall v | v in wanted
      ensures v in Normalize(norm, after)
    {
      if v in listed {
        var u :| u in SetOf(was) && norm(u) == v;
        assert u in listed && u !in wanted ==> exists x :: x in was && norm(x) == u && norm(x) !in wanted;
        assert u in after;
      } else {
        assert v in after && norm(v) == v;
      }
    }
  }

  /** After a change the list is in sync iff it was editable. */
  lemma ChangeSyncs(norm: string -> string, was: seq<string>, wanted: set<string>, now: seq<string>)
    requires Settling(norm) && Normalised(norm, wanted)
    requires var listed := Normalize(norm, SetOf(was)); Applied(was, Change(wanted - listed, listed - wanted), now)
    ensures Normalize(norm, SetOf(now)) == wanted <==> EditableList(norm, was, wanted)
  {
    hide Applied, Settling, Normalised;
    var listed := Normalize(norm, SetOf(was));
    AppliedMembers(was, Change(wanted - listed, listed - wanted), now);
    assert SetOf(now) == After(norm, was, wanted);
    if EditableList(norm, was, wanted) {
      EditableSyncs(norm, was, wanted);
    } else if u :| u in was && norm(u) !in wanted && norm(u) != u {
      AbnormalStays(norm, was, wanted, u);
    } else {
      var v :| v in wanted && v !in listed && norm(v) != v;
      AbnormalIsLost(norm, was, wanted, v);
    }
  }

  /** Applying the computed changes syncs an alias iff it was in sync or could be edited. */
  lemma AliasSyncs(norm: string -> string, teams: Teams, local: map<string, set<string>>, file: File, now: File, a: string)
    requires Settling(norm) && NoCollision(norm, file) && BuiltFrom(norm, teams, local)
    requires Written(file, ChangesFor(local, Parse(norm, file)), now)
    requires a in file && norm(a) in local
    ensures InSync(norm, local, now, a) <==> InSync(norm, local, file, a) || Editable(norm, local, file, a)
  {
    hide Granted, Applied, Normalize, BuiltFrom, Settling, EditableList;
    var parsed := Parse(norm, file);
    assert parsed[norm(a)] == Normalize(norm, SetOf(file[a]));
    if norm(a) != a {
      assert a !in parsed;
    } else if !InSync(norm, local, file, a) {
      LocalLoginsAreNormalised(norm, teams, local, a);
      ChangeSyncs(norm, file[a], local[a], now[a]);
    }
  }

  /**
   The fixed point: computing the changes of the written file anew yields none iff every alias that the
   teams know was in sync or could be edited.
   */
  lemma SecondSyncIsQuiet(norm: string -> string, teams: Teams, local: map<string, set<string>>, file: File, now: File)
    requires Settling(norm) && NoCollision(norm, file) && BuiltFrom(norm, teams, local)
    requires Written(file, ChangesFor(local, Parse(norm, file)), now)
    ensures NoCollision(norm, now)
    ensures ChangesFor(local, Parse(norm, now)) == map[]
       <==> forall a :: a in file && norm(a) in local ==> InSync(norm, local, file, a) || Editable(norm, local, file, a)
  {
    hide Granted, Applied, Normalize, BuiltFrom, InSync, Editable, Settling;
    forall a | a in file && norm(a) in local
      ensures InSync(norm, local, now, a) <==> InSync(norm, local, file, a) || Editable(norm, local, file, a)
    {
      AliasSyncs(norm, teams, local, file, now, a);
    }
    NoChangesLeft(norm, local, now);
  }

  lemma NoChangesLeft(norm: string -> string, local: map<string, set<string>>, file: File)
    requires NoCollision(norm, file)
    ensures ChangesFor(local, Parse(norm, file)) == map[] <==> forall a :: a in file && norm(a) in local ==> InSync(norm, local, file, a)
  {
    hide Normalize;
    var parsed := Parse(norm, file);
    var changes := ChangesFor(local, parsed);
    if a :| a in file && norm(a) in local && !InSync(norm, local, file, a) {
      assert parsed[norm(a)] == Normalize(norm, SetOf(file[a]));
      assert norm(a) in changes;
    } else {
      forall k | k in parsed
        ensures k !in changes
      {
        var a :| a in file && norm(a) == k;
      }
    }
  }

  /** On a normalised file every alias the teams know gets exactly their people; the others are untouched. */
  lemma SyncedMembers(norm: string -> string, teams: Teams, local: map<string, set<string>>, file: File, now: File)
    requires NoCollision(norm, file) && BuiltFrom(norm, teams, local)
    requires Written(file, ChangesFor(local, Parse(norm, file)), now)
    requires forall a :: a in file ==> norm(a) == a && forall u :: u in file[a] ==> norm(u) == u
    ensures now.Keys == file.Keys
    ensures forall a, u :: a in file && a in local ==> (u in now[a] <==> Granted(norm, teams, "", a, u))
    ensures forall a :: a in file && a !in local ==> now[a] == file[a]
  {
    hide Granted, Applied, Normalize;
    var parsed := Parse(norm, file);
    forall a, u | a in file && a in local
      ensures u in now[a] <==> Granted(norm, teams, "", a, u)
    {
      NormalList(norm, file[a]);
      assert parsed[norm(a)] == SetOf(file[a]);
      if local[a] != parsed[a] {
        AppliedMembers(file[a], ChangesFor(local, parsed)[a], now[a]);
      }
      assert u in SetOf(file[a]) <==> u in file[a];
    }
  }

  lemma NormalList(norm: string -> string, s: seq<string>)
    requires forall u :: u in s ==> norm(u) == u
    ensures Normalize(norm, SetOf(s)) == SetOf(s)
  {
    forall u | u in SetOf(s)
      ensures u in Normalize(norm, SetOf(s))
    {
      assert norm(u) == u;
    }
  }
}
