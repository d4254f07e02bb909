/**
 The organisation checker of peribolos-checkconfig: a recursive walk over the team tree that collects
 findings in one shared state, and the rules it decides. Go maps are visited in an arbitrary order.
 */
module OrgChecker {
  import opened Collections
  import opened OrgTeams
  import opened Wrappers

  datatype Repo = Repo(previously: seq<string>, archived: Option<bool>)

  datatype Org = Org(admins: seq<string>, members: seq<string>, teams: Teams, repos: map<string, Repo>)

  /** GitHub's login normalisation and Go's lower-casing. */
  datatype Spelling = Spelling(login: string -> string, lower: string -> string)

  // ---------- The rules ----------

  /** The path's team is called n: by its own name (place 0) or by its previous name at place i. */
  ghost predicate NamedAt(teams: Teams, path: seq<string>, i: nat, n: string) {
    && At(teams, path).Some?
    && (if i == 0 then n == path[|path| - 1]
        else i <= |At(teams, path).value.previously| && n == At(teams, path).value.previously[i - 1])
  }

  /** Two places of the tree use the name, current or previous. */
  ghost predicate UsedTwice(teams: Teams, n: string) {
    exists p, i, q, j :: NamedAt(teams, p, i, n) && NamedAt(teams, q, j, n) && (p != q || i != j)
  }

  /** Some team called n has a parent or children, and is secret. */
  ghost predicate OpenNestedTeam(teams: Teams, n: string) {
    exists p :: At(teams, p).Some? && p[|p| - 1] == n && OpenAt(At(teams, p).value, |p|)
  }

  ghost predicate OpenAt(t: Team, depth: nat) {
    (depth > 1 || t.children != Teams(map[])) && t.privacy == Some(Secret)
  }

  predicate IsOpen(t: Team, nested: bool) {
    (nested || t.children.byName != map[]) && t.privacy == Some(Secret)
  }

  /** Some team called n lists these users, and nobody else, as members and as maintainers. */
  ghost predicate DualRoleTeam(norm: string -> string, teams: Teams, n: string, users: set<string>) {
    exists p :: At(teams, p).Some? && p[|p| - 1] == n && PlayBothRoles(norm, At(teams, p).value, users)
  }

  ghost predicate PlayBothRoles(norm: string -> string, t: Team, users: set<string>) {
    users != {} && forall u :: u in users <==> PlaysBothRoles(norm, t, u)
  }

  ghost predicate PlaysBothRoles(norm: string -> string, t: Team, u: string) {
    exists a, b :: a in t.members && b in t.maintainers && norm(a) == u && norm(b) == u
  }

  lemma BothRolesArePlayed(norm: string -> string, t: Team, users: set<string>)
    ensures users != {} && BothRoles(norm, t) == users <==> PlayBothRoles(norm, t, users)
  {
    hide Normalize;
    forall u
      ensures u in BothRoles(norm, t) <==> PlaysBothRoles(norm, t, u)
    {
      NormalizedHas(norm, t.members, u);
      NormalizedHas(norm, t.maintainers, u);
    }
  }

  /** Some team's member or maintainer has this normalised login. */
  ghost predicate TeamUser(norm: string -> string, teams: Teams, u: string) {
    exists x :: TeamLogin(teams, x) && u == norm(x)
  }

  ghost predicate TeamLogin(teams: Teams, x: string) {
    exists p :: At(teams, p).Some? && (x in At(teams, p).value.members || x in At(teams, p).value.maintainers)
  }

  function BothRoles(norm: string -> string, t: Team): set<string> {
    Normalize(norm, SetOf(t.members)) * Normalize(norm, SetOf(t.maintainers))
  }

  /** The repository's names, current and previous, in lower case. */
  function RepoNames(lower: string -> string, name: string, repo: Repo): set<string> {
    set x | x in [name] + repo.previously :: lower(x)
  }

  /** Two different repositories share this lower-case name. */
  ghost predicate SharedName(lower: string -> string, repos: map<string, Repo>, x: string) {
    exists a, b :: a in repos && b in repos && a != b && x in RepoNames(lower, a, repos[a]) && x in RepoNames(lower, b, repos[b])
  }

  // ---------- What a walk finds ----------

  datatype Findings = Findings(members: set<string>, names: multiset<string>, open: multiset<string>,
                               dual: multiset<(string, set<string>)>) {
    function Plus(f: Findings): Findings {
      Findings(members + f.members, names + f.names, open + f.open, dual + f.dual)
    }
  }

  /** The findings about the team itself, without its children. */
  function Own(norm: string -> string, name: string, t: Team, nested: bool): Findings {
    Findings(Logins(t), multiset([name] + t.previously),
             if IsOpen(t, nested) then multiset{name} else multiset{},
             if BothRoles(norm, t) != {} then multiset{(name, BothRoles(norm, t))} else multiset{})
  }

  /** The findings about some of the teams and everything below them. */
  ghost function Found(norm: string -> string, teams: Teams, keys: set<string>, nested: bool): Findings
    requires keys <= teams.byName.Keys
    decreases teams, |keys|
  {
    if keys == {} then Findings({}, multiset{}, multiset{}, multiset{})
    else
      var k :| k in keys;
      var t := teams.byName[k];
      Own(norm, k, t, nested).Plus(Found(norm, t.children, t.children.byName.Keys, true)).Plus(Found(norm, teams, keys - {k}, nested))
  }

  /** The findings about one team and everything below it. */
  ghost function FoundAt(norm: string -> string, teams: Teams, k: string, nested: bool): Findings
    requires k in teams.byName
  {
    var t := teams.byName[k];
    Own(norm, k, t, nested).Plus(Found(norm, t.children, t.children.byName.Keys, true))
  }

  lemma PlusSwaps(a: Findings, b: Findings, c: Findings)
    ensures a.Plus(b.Plus(c)) == b.Plus(a.Plus(c))
    ensures a.Plus(b).Plus(c) == a.Plus(b.Plus(c))
  {
  }

  lemma PickOne(norm: string -> string, teams: Teams, keys: set<string>, nested: bool) returns (k: string)
    requires keys <= teams.byName.Keys && keys != {}
    ensures k in keys && Found(norm, teams, keys, nested) == FoundAt(norm, teams, k, nested).Plus(Found(norm, teams, keys - {k}, nested))
  {
    hide Own, Findings.Plus;
    k :| k in keys && Found(norm, teams, keys, nested)
      == Own(norm, k, teams.byName[k], nested)
         .Plus(Found(norm, teams.byName[k].children, teams.byName[k].children.byName.Keys, true))
         .Plus(Found(norm, teams, keys - {k}, nested));
  }

  /** The order in which the teams are visited does not matter. */
  lemma {:induction false} FoundInAnyOrder(norm: string -> string, teams: Teams, keys: set<string>, nested: bool, k: string)
    requires keys <= teams.byName.Keys && k in keys
    ensures Found(norm, teams, keys, nested) == FoundAt(norm, teams, k, nested).Plus(Found(norm, teams, keys - {k}, nested))
    decreases |keys|
  {
    hide Found, FoundAt, Findings.Plus;
    var first := PickOne(norm, teams, keys, nested);
    if first != k {
      FoundInAnyOrder(norm, teams, keys - {first}, nested, k);
      FoundInAnyOrder(norm, teams, keys - {k}, nested, first);
      assert keys - {first} - {k} == keys - {k} - {first};
      PlusSwaps(FoundAt(norm, teams, first, nested), FoundAt(norm, teams, k, nested), Found(norm, teams, keys - {k} - {first}, nested));
    }
  }

  // ---------- The walk ----------

  class TeamWalkState {
    var members: set<string>
    var names: set<string>
    var duplicateNames: set<string>
    var nestedNotClosed: seq<string>
    var dualRoleTeams: seq<(string, set<string>)>

    constructor ()
      ensures Tracks(Findings({}, multiset{}, multiset{}, multiset{}))
    {
      members, names, duplicateNames, nestedNotClosed, dualRoleTeams := {}, {}, {}, [], [];
    }

    /** The state is what remains of the findings: names once, duplicates once, the rest in some order. */
    ghost predicate Tracks(f: Findings)
      reads this
    {
      && members == f.members
      && (forall n :: n in names <==> f.names[n] >= 1)
      && (forall n :: n in duplicateNames <==> f.names[n] >= 2)
      && multiset(nestedNotClosed) == f.open
      && multiset(dualRoleTeams) == f.dual
    }

    method AddName(n: string, ghost f: Findings)
      requires Tracks(f)
      modifies this
      ensures Tracks(f.(names := f.names + multiset{n}))
    {
      if n in names {
        duplicateNames := duplicateNames + {n};
      }
      names := names + {n};
    }

    method AddNames(name: string, previously: seq<string>, ghost f: Findings)
      requires Tracks(f)
      modifies this
      ensures Tracks(f.(names := f.names + multiset([name] + previously)))
    {
      hide Tracks;
      ghost var g := f.(names := f.names + multiset{name});
      AddName(name, f);
      assert [name] + previously[..0] == [name];
      for i := 0 to |previously|
        invariant Tracks(g) && g == f.(names := f.names + multiset([name] + previously[..i]))
      {
        AddName(previously[i], g);
        assert [name] + previously[..i + 1] == [name] + previously[..i] + [previously[i]];
        g := g.(names := g.names + multiset{previously[i]});
      }
      assert previously[..|previously|] == previously;
    }

    method AddUsers(team: Team)
      modifies `members
      ensures members == old(members) + Logins(team)
    {
      hide SetOf;
      members := members + SetOf(team.members);
      members := members + SetOf(team.maintainers);
    }

    method AddRoles(norm: string -> string, name: string, team: Team)
      modifies `dualRoleTeams
      ensures multiset(dualRoleTeams)
           == old(multiset(dualRoleTeams)) + if BothRoles(norm, team) != {} then multiset{(name, BothRoles(norm, team))} else multiset{}
    {
      var both := Normalize(norm, SetOf(team.members)) * Normalize(norm, SetOf(team.maintainers));
      assert both == BothRoles(norm, team);
      hide BothRoles;
      if both != {} {
        dualRoleTeams := dualRoleTeams + [(name, both)];
      }
    }

    method AddPrivacy(name: string, team: Team, parentIsNested: bool)
      modifies `nestedNotClosed
      ensures multiset(nestedNotClosed) == old(multiset(nestedNotClosed)) + if IsOpen(team, parentIsNested) then multiset{name} else multiset{}
    {
      var isNested := parentIsNested || team.children.byName != map[];
      if isNested {
        if team.privacy.Some? && team.privacy.value != Closed {
          nestedNotClosed := nestedNotClosed + [name];
        }
      }
    }

    /** Records what there is to say about the team itself. */
    method AddTeam(norm: string -> string, name: string, team: Team, parentIsNested: bool, ghost f: Findings)
      requires Tracks(f)
      modifies this
      ensures Tracks(f.Plus(Own(norm, name, team, parentIsNested)))
    {
      hide Logins, BothRoles, IsOpen;
      AddUsers(team);
      AddRoles(norm, name, team);
      AddPrivacy(name, team, parentIsNested);
      AddNames(name, team.previously, f.Plus(Own(norm, name, team, parentIsNested)).(names := f.names));
    }

    /** Adds the findings of the whole tree, whatever the order in which the maps are visited. */
    method WalkTeams(norm: string -> string, teams: Teams, parentIsNested: bool, ghost f: Findings)
      requires Tracks(f)
      modifies this
      ensures Tracks(f.Plus(Found(norm, teams, teams.byName.Keys, parentIsNested)))
      decreases teams
    {
      hide Own, Findings.Plus, Tracks, Found, FoundAt;
      var keys := teams.byName.Keys;
      var rest := keys;
      ghost var g := f;
      assert keys - rest == {};
      FoundNothing(norm, teams, parentIsNested, f);
      while rest != {}
        invariant rest <= keys
        invariant Tracks(g) && g == f.Plus(Found(norm, teams, keys - rest, parentIsNested))
        decreases |rest|
      {
        var name :| name in rest;
        var team := teams.byName[name];
        FoundNext(norm, teams, keys - rest, parentIsNested, name, f);
        assert keys - (rest - {name}) == keys - rest + {name};
        rest := rest - {name};
        AddTeam(norm, name, team, parentIsNested, g);
        WalkTeams(norm, team.children, true, g.Plus(Own(norm, name, team, parentIsNested)));
        g := f.Plus(Found(norm, teams, keys - rest, parentIsNested));
      }
      assert keys - {} == keys;
    }
  }

  lemma FoundNothing(norm: string -> string, teams: Teams, nested: bool, f: Findings)
    ensures f == f.Plus(Found(norm, teams, {}, nested))
  {
  }

  lemma FoundNext(norm: string -> string, teams: Teams, done: set<string>, nested: bool, name: string, f: Findings)
    requires done <= teams.byName.Keys && name in teams.byName && name !in done
    ensures var t := teams.byName[name];
            f.Plus(Found(norm, teams, done, nested)).Plus(Own(norm, name, t, nested))
             .Plus(Found(norm, t.children, t.children.byName.Keys, true))
            == f.Plus(Found(norm, teams, done + {name}, nested))
  {
    hide Own, Findings.Plus, Found;
    var t := teams.byName[name];
    FoundInAnyOrder(norm, teams, done + {name}, nested, name);
    assert done + {name} - {name} == done;
    AddedTeam(f, Found(norm, teams, done, nested), Own(norm, name, t, nested),
              Found(norm, t.children, t.children.byName.Keys, true));
  }

  lemma AddedTeam(f: Findings, done: Findings, own: Findings, below: Findings)
    ensures f.Plus(done).Plus(own).Plus(below) == f.Plus(own.Plus(below).Plus(done))
  {
  }

  // ---------- Findings and the places they come from ----------

  datatype Aspect = Member | Name | Open | Dual(users: set<string>)

  predicate Marks(f: Findings, a: Aspect, x: string) {
    match a
    case Member => x in f.members
    case Name => x in f.names
    case Open => x in f.open
    case Dual(users) => (x, users) in f.dual
  }

  ghost predicate Reaches(teams: Teams, keys: set<string>, p: seq<string>) {
    At(teams, p).Some? && p[0] in keys
  }

  ghost predicate MarksAt(norm: string -> string, teams: Teams, p: seq<string>, nested: bool, a: Aspect, x: string)
    requires At(teams, p).Some?
  {
    Marks(Own(norm, p[|p| - 1], At(teams, p).value, nested || |p| > 1), a, x)
  }

  lemma MarksOfSum(f: Findings, g: Findings, a: Aspect, x: string)
    ensures Marks(f.Plus(g), a, x) <==> Marks(f, a, x) || Marks(g, a, x)
  {
  }

  /** A finding of the walk comes from a team of the tree. */
  lemma {:induction false} FoundSomewhere(norm: string -> string, teams: Teams, keys: set<string>, nested: bool, a: Aspect, x: string)
      returns (p: seq<string>)
    requires keys <= teams.byName.Keys && Marks(Found(norm, teams, keys, nested), a, x)
    ensures Reaches(teams, keys, p) && MarksAt(norm, teams, p, nested, a, x)
    decreases teams, |keys|
  {
    hide Own, Marks, Found, Findings.Plus;
    if keys == {} {
      NothingMarked(norm, teams, nested, a, x);
      assert false;
    } else {
      var k := PickOne(norm, teams, keys, nested);
      var t := teams.byName[k];
      var below := Found(norm, t.children, t.children.byName.Keys, true);
      MarksOfSum(FoundAt(norm, teams, k, nested), Found(norm, teams, keys - {k}, nested), a, x);
      MarksOfSum(Own(norm, k, t, nested), below, a, x);
      if Marks(Own(norm, k, t, nested), a, x) {
        p := [k];
      } else if Marks(below, a, x) {
        var q := FoundSomewhere(norm, t.children, t.children.byName.Keys, true, a, x);
        Below(teams, k, q);
        p := [k] + q;
      } else {
        p := FoundSomewhere(norm, teams, keys - {k}, nested, a, x);
      }
    }
  }

  lemma NothingMarked(norm: string -> string, teams: Teams, nested: bool, a: Aspect, x: string)
    ensures !Marks(Found(norm, teams, {}, nested), a, x)
  {
  }

  /** What holds of a team of the tree is found by the walk. */
  lemma {:induction false} EveryTeamIsFound(norm: string -> string, teams: Teams, keys: set<string>, nested: bool, a: Aspect, x: string,
                                            p: seq<string>)
    requires keys <= teams.byName.Keys && Reaches(teams, keys, p) && MarksAt(norm, teams, p, nested, a, x)
    ensures Marks(Found(norm, teams, keys, nested), a, x)
    decreases |p|
  {
    hide Own, Marks, Found, Findings.Plus;
    var k := p[0];
    var t := teams.byName[k];
    var below := Found(norm, t.children, t.children.byName.Keys, true);
    FoundInAnyOrder(norm, teams, keys, nested, k);
    MarksOfSum(FoundAt(norm, teams, k, nested), Found(norm, teams, keys - {k}, nested), a, x);
    MarksOfSum(Own(norm, k, t, nested), below, a, x);
    if |p| <= 1 {
    } else {
      var q := p[1..];
      assert At(t.children, q) == At(teams, p) && q[|q| - 1] == p[|p| - 1];
      EveryTeamIsFound(norm, t.children, t.children.byName.Keys, true, a, x, q);
    }
  }

  // ---------- Names used twice ----------

  function NamesOf(name: string, t: Team): seq<string> {
    [name] + t.previously
  }

  ghost predicate NamedIn(teams: Teams, keys: set<string>, p: seq<string>, i: nat, n: string) {
    NamedAt(teams, p, i, n) && p[0] in keys
  }

  lemma {:induction false} CountedTwice(s: seq<string>, n: string)
    requires multiset(s)[n] >= 2
    ensures exists i, j :: 0 <= i < j < |s| && s[i] == n && s[j] == n
  {
    var front, last := s[..|s| - 1], s[|s| - 1];
    assert s == front + [last];
    if last == n {
      assert n in multiset(front);
      var i :| 0 <= i < |front| && front[i] == n;
      assert s[i] == n && s[|s| - 1] == n;
    } else {
      CountedTwice(front, n);
      var i, j :| 0 <= i < j < |front| && front[i] == n && front[j] == n;
      assert s[i] == n && s[j] == n;
    }
  }

  /** The walk counts n once for every place of the tree that uses it. */
  lemma NamePlace(norm: string -> string, teams: Teams, keys: set<string>, nested: bool, n: string) returns (p: seq<string>, i: nat)
    requires keys <= teams.byName.Keys && Found(norm, teams, keys, nested).names[n] >= 1
    ensures NamedIn(teams, keys, p, i, n)
  {
    hide Found;
    p := FoundSomewhere(norm, teams, keys, nested, Name, n);
    var name, t := p[|p| - 1], At(teams, p).value;
    i :| 0 <= i < |NamesOf(name, t)| && NamesOf(name, t)[i] == n;
    assert NamesOf(name, t)[i] == if i == 0 then name else t.previously[i - 1];
  }

  lemma PlaceCounts(norm: string -> string, teams: Teams, keys: set<string>, nested: bool, n: string, p: seq<string>, i: nat)
    requires keys <= teams.byName.Keys && NamedIn(teams, keys, p, i, n)
    ensures Found(norm, teams, keys, nested).names[n] >= 1
  {
    hide Found;
    assert NamesOf(p[|p| - 1], At(teams, p).value)[i] == n;
    EveryTeamIsFound(norm, teams, keys, nested, Name, n, p);
  }

  lemma NamedBelow(teams: Teams, keys: set<string>, k: string, p: seq<string>, i: nat, n: string)
    requires k in teams.byName && k in keys && p != []
    ensures NamedIn(teams, keys, [k] + p, i, n)
       <==> NamedIn(teams.byName[k].children, teams.byName[k].children.byName.Keys, p, i, n)
  {
    Below(teams, k, p);
  }

  lemma {:induction false} TwoPlaces(norm: string -> string, teams: Teams, keys: set<string>, nested: bool, n: string)
      returns (p: seq<string>, i: nat, q: seq<string>, j: nat)
    requires keys <= teams.byName.Keys && Found(norm, teams, keys, nested).names[n] >= 2
    ensures NamedIn(teams, keys, p, i, n) && NamedIn(teams, keys, q, j, n) && (p != q || i != j)
    decreases teams, |keys|
  {
    hide Found, NamedIn;
    NoNames(norm, teams, nested, n);
    var k := PickOne(norm, teams, keys, nested);
    var t := teams.byName[k];
    var all := t.children.byName.Keys;
    var own, below, rest := multiset(NamesOf(k, t))[n], Found(norm, t.children, all, true).names[n], Found(norm, teams, keys - {k}, nested).names[n];
    assert own + below + rest >= 2;
    if rest >= 2 {
      p, i, q, j := TwoPlaces(norm, teams, keys - {k}, nested, n);
      InMore(teams, keys, k, p, i, n);
      InMore(teams, keys, k, q, j, n);
    } else if below >= 2 {
      p, i, q, j := TwoPlaces(norm, t.children, all, true, n);
      PathInside(t.children, all, p, i, n);
      PathInside(t.children, all, q, j, n);
      NamedBelow(teams, keys, k, p, i, n);
      NamedBelow(teams, keys, k, q, j, n);
      assert ([k] + p)[1..] == p && ([k] + q)[1..] == q;
      p, q := [k] + p, [k] + q;
    } else if own >= 2 {
      CountedTwice(NamesOf(k, t), n);
      i, j :| 0 <= i < j < |NamesOf(k, t)| && NamesOf(k, t)[i] == n && NamesOf(k, t)[j] == n;
      p, q := [k], [k];
      OwnName(teams, keys, k, i, n);
      OwnName(teams, keys, k, j, n);
    } else if rest == 1 {
      p, i := NamePlace(norm, teams, keys - {k}, nested, n);
      InMore(teams, keys, k, p, i, n);
      if own == 1 {
        q, j := OwnPlace(teams, keys, k, n);
      } else {
        q, j := BelowPlace(norm, teams, keys, k, n);
      }
    } else {
      p, i := OwnPlace(teams, keys, k, n);
      q, j := BelowPlace(norm, teams, keys, k, n);
    }
  }

  lemma NoNames(norm: string -> string, teams: Teams, nested: bool, n: string)
    ensures Found(norm, teams, {}, nested).names[n] == 0
  {
  }

  lemma InMore(teams: Teams, keys: set<string>, k: string, p: seq<string>, i: nat, n: string)
    requires NamedIn(teams, keys - {k}, p, i, n)
    ensures NamedIn(teams, keys, p, i, n) && p != [] && p[0] != k
  {
  }

  lemma PathInside(teams: Teams, keys: set<string>, p: seq<string>, i: nat, n: string)
    requires NamedIn(teams, keys, p, i, n)
    ensures p != []
  {
  }

  lemma OwnName(teams: Teams, keys: set<string>, k: string, i: nat, n: string)
    requires k in teams.byName && k in keys && i < |NamesOf(k, teams.byName[k])| && NamesOf(k, teams.byName[k])[i] == n
    ensures NamedIn(teams, keys, [k], i, n)
  {
  }

  lemma OwnPlace(teams: Teams, keys: set<string>, k: string, n: string) returns (p: seq<string>, i: nat)
    requires k in teams.byName && k in keys && n in multiset(NamesOf(k, teams.byName[k]))
    ensures p == [k] && NamedIn(teams, keys, p, i, n)
  {
    i :| 0 <= i < |NamesOf(k, teams.byName[k])| && NamesOf(k, teams.byName[k])[i] == n;
    OwnName(teams, keys, k, i, n);
    p := [k];
  }

  lemma BelowPlace(norm: string -> string, teams: Teams, keys: set<string>, k: string, n: string) returns (p: seq<string>, i: nat)
    requires k in teams.byName && k in keys
    requires Found(norm, teams.byName[k].children, teams.byName[k].children.byName.Keys, true).names[n] >= 1
    ensures |p| > 1 && p[0] == k && NamedIn(teams, keys, p, i, n)
  {
    hide Found;
    var q, j := NamePlace(norm, teams.byName[k].children, teams.byName[k].children.byName.Keys, true, n);
    NamedBelow(teams, keys, k, q, j, n);
    p, i := [k] + q, j;
  }

  lemma CountSplits(norm: string -> string, teams: Teams, keys: set<string>, nested: bool, n: string, k: string)
    requires keys <= teams.byName.Keys && k in keys
    ensures var t := teams.byName[k];
            Found(norm, teams, keys, nested).names[n]
            == multiset(NamesOf(k, t))[n] + Found(norm, t.children, t.children.byName.Keys, true).names[n]
               + Found(norm, teams, keys - {k}, nested).names[n]
  {
    hide Found;
    FoundInAnyOrder(norm, teams, keys, nested, k);
  }

  /** A place below k, or k's own, shows in k's share of the count. */
  lemma ShareOf(norm: string -> string, teams: Teams, keys: set<string>, n: string, p: seq<string>, i: nat)
    requires keys <= teams.byName.Keys && NamedIn(teams, keys, p, i, n)
    ensures |p| == 1 ==> i < |NamesOf(p[0], teams.byName[p[0]])| && NamesOf(p[0], teams.byName[p[0]])[i] == n
    ensures |p| > 1 ==>
              var c := teams.byName[p[0]].children;
              NamedIn(c, c.byName.Keys, p[1..], i, n) && Found(norm, c, c.byName.Keys, true).names[n] >= 1
  {
    hide Found;
    if |p| > 1 {
      var c := teams.byName[p[0]].children;
      assert p == [p[0]] + p[1..];
      NamedBelow(teams, keys, p[0], p[1..], i, n);
      PlaceCounts(norm, c, c.byName.Keys, true, n, p[1..], i);
    }
  }

  lemma {:induction false} TwoPlacesCount(norm: string -> string, teams: Teams, keys: set<string>, nested: bool, n: string,
                                          p: seq<string>, i: nat, q: seq<string>, j: nat)
    requires keys <= teams.byName.Keys && NamedIn(teams, keys, p, i, n) && NamedIn(teams, keys, q, j, n) && (p != q || i != j)
    ensures Found(norm, teams, keys, nested).names[n] >= 2
    decreases |p|
  {
    hide Found, NamedAt, NamesOf;
    PathInside(teams, keys, p, i, n);
    PathInside(teams, keys, q, j, n);
    var k := p[0];
    var t := teams.byName[k];
    CountSplits(norm, teams, keys, nested, n, k);
    ShareOf(norm, teams, keys, n, p, i);
    if q[0] != k {
      PlaceCounts(norm, teams, keys - {k}, nested, n, q, j);
      assert |p| == 1 ==> n in multiset(NamesOf(k, t));
    } else {
      ShareOf(norm, teams, keys, n, q, j);
      if |p| == 1 && |q| == 1 {
        assert p == [k] && q == [k];
        SeenTwice(NamesOf(k, t), if i < j then i else j, if i < j then j else i, n);
      } else if |p| > 1 && |q| > 1 {
        assert p == [k] + p[1..] && q == [k] + q[1..];
        TwoPlacesCount(norm, t.children, t.children.byName.Keys, true, n, p[1..], i, q[1..], j);
      } else {
        assert n in multiset(NamesOf(k, t));
      }
    }
  }

  // ---------- What the walk decides ----------

  lemma WalkFindsOutsiders(norm: string -> string, teams: Teams, u: string)
    ensures u in Found(norm, teams, teams.byName.Keys, false).members <==> TeamLogin(teams, u)
  {
    hide Found;
    var keys := teams.byName.Keys;
    if u in Found(norm, teams, keys, false).members {
      var p := FoundSomewhere(norm, teams, keys, false, Member, u);
      assert u in Logins(At(teams, p).value);
    }
    forall p | At(teams, p).Some? && (u in At(teams, p).value.members || u in At(teams, p).value.maintainers)
      ensures u in Found(norm, teams, keys, false).members
    {
      EveryTeamIsFound(norm, teams, keys, false, Member, u, p);
    }
  }

  /** A name is counted twice iff two places use it. */
  lemma WalkFindsDuplicates(norm: string -> string, teams: Teams, n: string)
    ensures Found(norm, teams, teams.byName.Keys, false).names[n] >= 2 <==> UsedTwice(teams, n)
  {
    hide Found, NamedAt;
    var keys := teams.byName.Keys;
    if Found(norm, teams, keys, false).names[n] >= 2 {
      var p, i, q, j := TwoPlaces(norm, teams, keys, false, n);
    }
    forall p, i, q, j | NamedAt(teams, p, i, n) && NamedAt(teams, q, j, n) && (p != q || i != j)
      ensures Found(norm, teams, keys, false).names[n] >= 2
    {
      NamedFromTop(teams, p, i, n);
      NamedFromTop(teams, q, j, n);
      TwoPlacesCount(norm, teams, keys, false, n, p, i, q, j);
    }
  }

  lemma NamedFromTop(teams: Teams, p: seq<string>, i: nat, n: string)
    requires NamedAt(teams, p, i, n)
    ensures NamedIn(teams, teams.byName.Keys, p, i, n)
  {
  }

  lemma WalkFindsOpenTeams(norm: string -> string, teams: Teams, n: string)
    ensures n in Found(norm, teams, teams.byName.Keys, false).open <==> OpenNestedTeam(teams, n)
  {
    hide Found;
    var keys := teams.byName.Keys;
    if n in Found(norm, teams, keys, false).open {
      var p := FoundSomewhere(norm, teams, keys, false, Open, n);
    }
    forall p | At(teams, p).Some? && p[|p| - 1] == n && OpenAt(At(teams, p).value, |p|)
      ensures n in Found(norm, teams, keys, false).open
    {
      EveryTeamIsFound(norm, teams, keys, false, Open, n, p);
    }
  }

  lemma WalkFindsDualRoles(norm: string -> string, teams: Teams, n: string, users: set<string>)
    ensures (n, users) in Found(norm, teams, teams.byName.Keys, false).dual <==> DualRoleTeam(norm, teams, n, users)
  {
    hide Found, BothRoles, PlayBothRoles;
    var keys := teams.byName.Keys;
    if (n, users) in Found(norm, teams, keys, false).dual {
      var p := FoundSomewhere(norm, teams, keys, false, Dual(users), n);
      BothRolesArePlayed(norm, At(teams, p).value, users);
    }
    forall p | At(teams, p).Some? && p[|p| - 1] == n && PlayBothRoles(norm, At(teams, p).value, users)
      ensures (n, users) in Found(norm, teams, keys, false).dual
    {
      BothRolesArePlayed(norm, At(teams, p).value, users);
      EveryTeamIsFound(norm, teams, keys, false, Dual(users), n, p);
    }
  }

  // ---------- Repositories ----------

  /** Some repository among the keys has the lower-case name. */
  ghost predicate Taken(lower: string -> string, repos: map<string, Repo>, keys: set<string>, x: string) {
    exists a :: a in keys && a in repos && x in RepoNames(lower, a, repos[a])
  }

  ghost predicate SharedAmong(lower: string -> string, repos: map<string, Repo>, keys: set<string>, x: string) {
    exists a, b :: a in keys && b in keys && a in repos && b in repos && a != b
                   && x in RepoNames(lower, a, repos[a]) && x in RepoNames(lower, b, repos[b])
  }

  /** The name is the later of a pair reported as duplicates. */
  ghost predicate Reported(lower: string -> string, dups: seq<(string, string)>, x: string) {
    exists i :: 0 <= i < |dups| && lower(dups[i].1) == x
  }

  lemma TakenOneMore(lower: string -> string, repos: map<string, Repo>, keys: set<string>, k: string, x: string)
    requires k in repos && k !in keys
    ensures Taken(lower, repos, keys + {k}, x) <==> Taken(lower, repos, keys, x) || x in RepoNames(lower, k, repos[k])
    ensures SharedAmong(lower, repos, keys + {k}, x)
       <==> SharedAmong(lower, repos, keys, x) || (Taken(lower, repos, keys, x) && x in RepoNames(lower, k, repos[k]))
  {
    hide RepoNames;
    if x in RepoNames(lower, k, repos[k]) {
      assert k in keys + {k};
    }
  }

  /** Compares a repository's names with those seen before, not with each other. */
  method CompareNames(lower: string -> string, seen: map<string, string>, toCheck: seq<string>, dups: seq<(string, string)>)
      returns (more: seq<(string, string)>)
    requires forall x :: x in seen ==> lower(seen[x]) == x
    requires forall i :: 0 <= i < |dups| ==> lower(dups[i].0) == lower(dups[i].1)
    ensures forall i :: 0 <= i < |more| ==> lower(more[i].0) == lower(more[i].1)
    ensures forall x :: Reported(lower, more, x) <==> Reported(lower, dups, x) || (x in seen && exists n :: n in toCheck && lower(n) == x)
  {
    more := dups;
    for i := 0 to |toCheck|
      invariant forall k :: 0 <= k < |more| ==> lower(more[k].0) == lower(more[k].1)
      invariant forall x :: Reported(lower, more, x) <==> Reported(lower, dups, x) || (x in seen && exists n :: n in toCheck[..i] && lower(n) == x)
    {
      hide Reported;
      var n := toCheck[i];
      assert toCheck[..i + 1] == toCheck[..i] + [n];
      if lower(n) in seen {
        ReportedMore(lower, more, (seen[lower(n)], n));
        more := more + [(seen[lower(n)], n)];
      }
    }
    assert toCheck[..|toCheck|] == toCheck;
  }

  lemma ReportedMore(lower: string -> string, dups: seq<(string, string)>, d: (string, string))
    ensures forall x :: Reported(lower, dups + [d], x) <==> Reported(lower, dups, x) || x == lower(d.1)
  {
    forall x
      ensures Reported(lower, dups + [d], x) <==> Reported(lower, dups, x) || x == lower(d.1)
    {
      var all := dups + [d];
      if Reported(lower, dups, x) {
        var i :| 0 <= i < |dups| && lower(dups[i].1) == x;
        assert all[i] == dups[i];
      }
      assert all[|dups|] == d;
    }
  }

  method Remember(lower: string -> string, seen: map<string, string>, toCheck: seq<string>) returns (more: map<string, string>)
    requires forall x :: x in seen ==> lower(seen[x]) == x
    ensures forall x :: x in more ==> lower(more[x]) == x
    ensures forall x :: x in more <==> x in seen || exists n :: n in toCheck && lower(n) == x
  {
    more := seen;
    for i := 0 to |toCheck|
      invariant forall x :: x in more ==> lower(more[x]) == x
      invariant forall x :: x in more <==> x in seen || exists n :: n in toCheck[..i] && lower(n) == x
    {
      assert toCheck[..i + 1] == toCheck[..i] + [toCheck[i]];
      more := more[lower(toCheck[i]) := toCheck[i]];
    }
    assert toCheck[..|toCheck|] == toCheck;
  }

  /**
   The reported pairs clash, and what they clash on is exactly the set of lower-case names that two
   different repositories share; the second list is exactly the repositories asked to be unarchived.
   */
  method ValidateRepos(lower: string -> string, repos: map<string, Repo>) returns (dups: seq<(string, string)>, unarchive: seq<string>)
    ensures forall i :: 0 <= i < |dups| ==> lower(dups[i].0) == lower(dups[i].1)
    ensures forall x :: Reported(lower, dups, x) <==> SharedName(lower, repos, x)
    ensures forall a :: a in unarchive <==> a in repos && repos[a].archived == Some(false)
  {
    hide Taken, SharedAmong, Reported, RepoNames;
    dups, unarchive := [], [];
    var seen: map<string, string> := map[];
    var rest := repos.Keys;
    NothingTaken(lower, repos, rest);
    while rest != {}
      invariant rest <= repos.Keys
      invariant forall i :: 0 <= i < |dups| ==> lower(dups[i].0) == lower(dups[i].1)
      invariant forall x :: x in seen ==> lower(seen[x]) == x
      invariant forall x :: x in seen <==> Taken(lower, repos, repos.Keys - rest, x)
      invariant forall x :: Reported(lower, dups, x) <==> SharedAmong(lower, repos, repos.Keys - rest, x)
      invariant forall a :: a in unarchive <==> a in repos.Keys - rest && repos[a].archived == Some(false)
      decreases |rest|
    {
      var wantName :| wantName in rest;
      var repo := repos[wantName];
      var done := repos.Keys - rest;
      assert repos.Keys - (rest - {wantName}) == done + {wantName};
      rest := rest - {wantName};
      if repo.archived.Some? && !repo.archived.value {
        unarchive := unarchive + [wantName];
      }
      var toCheck := [wantName] + repo.previously;
      NamesToCheck(lower, wantName, repo);
      forall x {
        TakenOneMore(lower, repos, done, wantName, x);
      }
      dups := CompareNames(lower, seen, toCheck, dups);
      seen := Remember(lower, seen, toCheck);
    }
    assert repos.Keys - rest == repos.Keys;
    AllKeys(lower, repos);
  }

  lemma NothingTaken(lower: string -> string, repos: map<string, Repo>, all: set<string>)
    requires all == repos.Keys
    ensures forall x :: !Taken(lower, repos, repos.Keys - all, x) && !SharedAmong(lower, repos, repos.Keys - all, x) && !Reported(lower, [], x)
  {
  }

  lemma AllKeys(lower: string -> string, repos: map<string, Repo>)
    ensures forall x :: SharedAmong(lower, repos, repos.Keys, x) <==> SharedName(lower, repos, x)
  {
    hide RepoNames;
  }

  lemma NamesToCheck(lower: string -> string, name: string, repo: Repo)
    ensures forall x :: x in RepoNames(lower, name, repo) <==> exists n :: n in [name] + repo.previously && lower(n) == x
  {
  }

  // ---------- The check of an organisation ----------

  datatype Options = Options(minAdmins: int, requiredAdmins: seq<string>)

  datatype Problem =
    | TooFewAdmins(found: nat)
    | MissingAdmins(missing: seq<string>)
    | AdminsAmongMembers(users: set<string>)
    | OutsideUsers(outside: set<string>)
    | DuplicateTeamNames(names: set<string>)
    | NestedNotClosed(teams: seq<string>)
    | DualRoles(both: seq<(string, set<string>)>)
    | DuplicateRepos(dups: seq<(string, string)>)
    | Unarchivals(repos: seq<string>)

  datatype Rule =
    EnoughAdmins | RequiredAdmins | AdminsApart | UsersBelong | TeamNamesUnique | NestedClosed | RolesApart | ReposUnique | NoUnarchival

  function RuleOf(e: Problem): Rule {
    match e
    case TooFewAdmins(_) => EnoughAdmins
    case MissingAdmins(_) => RequiredAdmins
    case AdminsAmongMembers(_) => AdminsApart
    case OutsideUsers(_) => UsersBelong
    case DuplicateTeamNames(_) => TeamNamesUnique
    case NestedNotClosed(_) => NestedClosed
    case DualRoles(_) => RolesApart
    case DuplicateRepos(_) => ReposUnique
    case Unarchivals(_) => NoUnarchival
  }

  function OrgUsers(sp: Spelling, org: Org): set<string> {
    Normalize(sp.login, SetOf(org.admins)) + Normalize(sp.login, SetOf(org.members))
  }

  /** The normalised login belongs to an admin or a member. */
  ghost predicate OrgUser(sp: Spelling, org: Org, u: string) {
    exists x :: (x in org.admins || x in org.members) && sp.login(x) == u
  }

  /** The normalised login belongs to an admin and to a member. */
  ghost predicate AdminAndMember(sp: Spelling, org: Org, u: string) {
    exists a, m :: a in org.admins && m in org.members && sp.login(a) == u && sp.login(m) == u
  }

  lemma NormalizedHas(norm: string -> string, s: seq<string>, u: string)
    ensures u in Normalize(norm, SetOf(s)) <==> exists x :: x in s && norm(x) == u
  {
    if u in Normalize(norm, SetOf(s)) {
      var x :| x in SetOf(s) && norm(x) == u;
      assert x in s;
    }
    if x :| x in s && norm(x) == u {
      assert x in SetOf(s);
    }
  }

  lemma OrgUsersAreUsers(sp: Spelling, org: Org)
    ensures forall u :: u in OrgUsers(sp, org) <==> OrgUser(sp, org, u)
  {
    hide Normalize;
    forall u
      ensures u in OrgUsers(sp, org) <==> OrgUser(sp, org, u)
    {
      NormalizedHas(sp.login, org.admins, u);
      NormalizedHas(sp.login, org.members, u);
    }
  }

  /** The organisation breaks the rule. */
  ghost predicate Breaks(opt: Options, sp: Spelling, org: Org, r: Rule) {
    match r
    case EnoughAdmins => |SetOf(org.admins)| < opt.minAdmins
    case RequiredAdmins => exists x :: x in opt.requiredAdmins && x !in org.admins
    case AdminsApart => exists u :: AdminAndMember(sp, org, u)
    case UsersBelong => exists u :: TeamUser(sp.login, org.teams, u) && !OrgUser(sp, org, u)
    case TeamNamesUnique => exists n :: UsedTwice(org.teams, n)
    case NestedClosed => exists n :: OpenNestedTeam(org.teams, n)
    case RolesApart => exists n, users :: DualRoleTeam(sp.login, org.teams, n, users)
    case ReposUnique => exists x :: SharedName(sp.lower, org.repos, x)
    case NoUnarchival => exists a :: a in org.repos && org.repos[a].archived == Some(false)
  }

  /** The problem says exactly what breaks its rule. */
  ghost predicate Exact(opt: Options, sp: Spelling, org: Org, e: Problem) {
    match e
    case TooFewAdmins(n) => n == |SetOf(org.admins)|
    case MissingAdmins(xs) => forall x :: x in xs <==> x in opt.requiredAdmins && x !in org.admins
    case AdminsAmongMembers(us) => forall u :: u in us <==> AdminAndMember(sp, org, u)
    case OutsideUsers(us) => forall u :: u in us <==> TeamUser(sp.login, org.teams, u) && !OrgUser(sp, org, u)
    case DuplicateTeamNames(ns) => forall n :: n in ns <==> UsedTwice(org.teams, n)
    case NestedNotClosed(ns) => forall n :: n in ns <==> OpenNestedTeam(org.teams, n)
    case DualRoles(ns) => forall n, users :: (n, users) in ns <==> DualRoleTeam(sp.login, org.teams, n, users)
    case DuplicateRepos(ds) => forall x :: Reported(sp.lower, ds, x) <==> SharedName(sp.lower, org.repos, x)
    case Unarchivals(ns) => forall a :: a in ns <==> a in org.repos && org.repos[a].archived == Some(false)
  }

  ghost predicate Reports(errs: seq<Problem>, r: Rule) {
    exists i :: 0 <= i < |errs| && RuleOf(errs[i]) == r
  }

  /** The rules in the order of the checks. */
  ghost function Rank(r: Rule): nat {
    match r
    case EnoughAdmins => 0
    case RequiredAdmins => 1
    case AdminsApart => 2
    case UsersBelong => 3
    case TeamNamesUnique => 4
    case NestedClosed => 5
    case RolesApart => 6
    case ReposUnique => 7
    case NoUnarchival => 8
  }

  /** Exactly the broken rules among the first k are reported, each exactly. */
  ghost predicate Checked(opt: Options, sp: Spelling, org: Org, errs: seq<Problem>, k: nat) {
    && (forall r :: Reports(errs, r) <==> Rank(r) < k && Breaks(opt, sp, org, r))
    && (forall e :: e in errs ==> Exact(opt, sp, org, e))
  }

  lemma ReportsMore(errs: seq<Problem>, e: Problem, r: Rule)
    ensures Reports(errs + [e], r) <==> Reports(errs, r) || r == RuleOf(e)
  {
    var all := errs + [e];
    assert all[|errs|] == e;
    if Reports(errs, r) {
      var i :| 0 <= i < |errs| && RuleOf(errs[i]) == r;
      assert all[i] == errs[i];
    }
  }

  /** Adds the problem if its rule is broken. */
  method Check(opt: Options, sp: Spelling, org: Org, errs: seq<Problem>, broken: bool, e: Problem, ghost k: nat)
      returns (more: seq<Problem>)
    requires Checked(opt, sp, org, errs, k) && Rank(RuleOf(e)) == k
    requires broken <==> Breaks(opt, sp, org, RuleOf(e))
    requires Exact(opt, sp, org, e)
    ensures Checked(opt, sp, org, more, k + 1)
  {
    hide Breaks, Exact, Reports;
    more := errs;
    if broken {
      forall r {
        ReportsMore(errs, e, r);
      }
      more := errs + [e];
    }
  }

  method MissingFrom(required: seq<string>, have: set<string>) returns (missing: seq<string>)
    ensures forall x :: x in missing <==> x in required && x !in have
  {
    missing := [];
    for i := 0 to |required|
      invariant forall x :: x in missing <==> x in required[..i] && x !in have
    {
      if required[i] !in have {
        missing := missing + [required[i]];
      }
    }
  }

  /** The checks of the admins, which come first. */
  method CheckAdmins(opt: Options, sp: Spelling, org: Org, errs: seq<Problem>) returns (more: seq<Problem>)
    requires Checked(opt, sp, org, errs, 0)
    ensures Checked(opt, sp, org, more, 3)
  {
    hide Checked, Reports, Normalize, OrgUser, AdminAndMember;
    var wantAdmins := SetOf(org.admins);
    more := Check(opt, sp, org, errs, |wantAdmins| < opt.minAdmins, TooFewAdmins(|wantAdmins|), 0);
    var missing := MissingFrom(opt.requiredAdmins, wantAdmins);
    CulpritsInSeq(missing);
    more := Check(opt, sp, org, more, missing != [], MissingAdmins(missing), 1);
    var both := Normalize(sp.login, wantAdmins) * Normalize(sp.login, SetOf(org.members));
    AdminsAreApart(opt, sp, org, both);
    more := Check(opt, sp, org, more, both != {}, AdminsAmongMembers(both), 2);
  }

  lemma OutsidersBreak(opt: Options, sp: Spelling, org: Org, outside: set<string>)
    requires Exact(opt, sp, org, OutsideUsers(outside))
    ensures outside != {} <==> Breaks(opt, sp, org, UsersBelong)
  {
    hide TeamUser, OrgUser;
    CulpritsInSet(outside);
  }

  lemma TeamsBreak(opt: Options, sp: Spelling, org: Org, names: set<string>, open: seq<string>,
                   dual: seq<(string, set<string>)>)
    requires Exact(opt, sp, org, DuplicateTeamNames(names)) && Exact(opt, sp, org, NestedNotClosed(open))
    requires Exact(opt, sp, org, DualRoles(dual))
    ensures |names| > 0 <==> Breaks(opt, sp, org, TeamNamesUnique)
    ensures |open| > 0 <==> Breaks(opt, sp, org, NestedClosed)
    ensures |dual| > 0 <==> Breaks(opt, sp, org, RolesApart)
  {
    hide UsedTwice, OpenNestedTeam, DualRoleTeam;
    CulpritsInSet(names);
    CulpritsInSeq(open);
    if |dual| > 0 {
      assert (dual[0].0, dual[0].1) in dual;
    }
  }

  /** The walk's state, and the outsiders computed from it, are exactly what breaks the team rules. */
  lemma TeamsAreExact(opt: Options, sp: Spelling, org: Org, state: TeamWalkState)
    requires state.Tracks(Findings({}, multiset{}, multiset{}, multiset{}).Plus(Found(sp.login, org.teams, org.teams.byName.Keys, false)))
    ensures Exact(opt, sp, org, OutsideUsers(Normalize(sp.login, state.members) - OrgUsers(sp, org)))
    ensures Exact(opt, sp, org, DuplicateTeamNames(state.duplicateNames))
    ensures Exact(opt, sp, org, NestedNotClosed(state.nestedNotClosed))
    ensures Exact(opt, sp, org, DualRoles(state.dualRoleTeams))
  {
    hide Found, UsedTwice, OpenNestedTeam, DualRoleTeam, TeamLogin, TeamUser, Normalize, OrgUsers, OrgUser, Findings.Plus, TeamWalkState.Tracks;
    WalkDecides(sp.login, org.teams, state);
    UsersOutside(sp, org, state.members, OrgUsers(sp, org));
    OrgUsersAreUsers(sp, org);
  }

  /** The checks of the team tree. */
  method CheckTeams(opt: Options, sp: Spelling, org: Org, errs: seq<Problem>) returns (more: seq<Problem>)
    requires Checked(opt, sp, org, errs, 3)
    ensures Checked(opt, sp, org, more, 7)
  {
    hide Found, Breaks, Exact, Checked, Reports, Normalize, OrgUsers, Findings.Plus, TeamWalkState.Tracks;
    var state := new TeamWalkState();
    state.WalkTeams(sp.login, org.teams, false, Findings({}, multiset{}, multiset{}, multiset{}));
    TeamsAreExact(opt, sp, org, state);
    var outside := Normalize(sp.login, state.members) - OrgUsers(sp, org);
    OutsidersBreak(opt, sp, org, outside);
    TeamsBreak(opt, sp, org, state.duplicateNames, state.nestedNotClosed, state.dualRoleTeams);
    more := Check(opt, sp, org, errs, outside != {}, OutsideUsers(outside), 3);
    more := Check(opt, sp, org, more, |state.duplicateNames| > 0, DuplicateTeamNames(state.duplicateNames), 4);
    more := Check(opt, sp, org, more, |state.nestedNotClosed| > 0, NestedNotClosed(state.nestedNotClosed), 5);
    more := Check(opt, sp, org, more, |state.dualRoleTeams| > 0, DualRoles(state.dualRoleTeams), 6);
  }

  /** The checks of the repositories. */
  method CheckRepos(opt: Options, sp: Spelling, org: Org, errs: seq<Problem>) returns (more: seq<Problem>)
    requires Checked(opt, sp, org, errs, 7)
    ensures Checked(opt, sp, org, more, 9)
  {
    hide SharedName, Reported, Checked, Reports;
    var dups, unarchive := ValidateRepos(sp.lower, org.repos);
    DupsOnSharedNames(sp.lower, dups);
    more := Check(opt, sp, org, errs, |dups| > 0, DuplicateRepos(dups), 7);
    CulpritsInSeq(unarchive);
    more := Check(opt, sp, org, more, |unarchive| > 0, Unarchivals(unarchive), 8);
  }

  lemma NothingChecked(opt: Options, sp: Spelling, org: Org)
    ensures Checked(opt, sp, org, [], 0)
  {
  }

  lemma AllChecked(opt: Options, sp: Spelling, org: Org, errs: seq<Problem>)
    requires Checked(opt, sp, org, errs, 9)
    ensures errs == [] <==> forall r :: !Breaks(opt, sp, org, r)
    ensures forall r :: Reports(errs, r) <==> Breaks(opt, sp, org, r)
    ensures forall e :: e in errs ==> Exact(opt, sp, org, e)
  {
    hide Breaks, Exact;
    forall r
      ensures Reports(errs, r) <==> Breaks(opt, sp, org, r)
      ensures errs == [] ==> !Breaks(opt, sp, org, r)
    {
      assert Rank(r) < 9;
    }
    if errs != [] {
      assert Reports(errs, RuleOf(errs[0]));
    }
  }

  /** A list or set of culprits is empty iff there is no culprit. */
  lemma CulpritsInSeq(s: seq<string>)
    ensures |s| > 0 <==> exists x :: x in s
  {
    if |s| > 0 {
      assert s[0] in s;
    }
  }

  lemma CulpritsInSet(s: set<string>)
    ensures |s| > 0 <==> exists x :: x in s
    ensures s != {} <==> exists x :: x in s
  {
    if s != {} {
      var x :| x in s;
    }
  }

  lemma AdminsAreApart(opt: Options, sp: Spelling, org: Org, both: set<string>)
    requires both == Normalize(sp.login, SetOf(org.admins)) * Normalize(sp.login, SetOf(org.members))
    ensures Exact(opt, sp, org, AdminsAmongMembers(both))
    ensures both != {} <==> Breaks(opt, sp, org, AdminsApart)
  {
    hide Normalize;
    forall u
      ensures u in both <==> AdminAndMember(sp, org, u)
    {
      NormalizedHas(sp.login, org.admins, u);
      NormalizedHas(sp.login, org.members, u);
    }
    hide AdminAndMember;
    CulpritsInSet(both);
  }

  lemma UsersOutside(sp: Spelling, org: Org, logins: set<string>, users: set<string>)
    requires forall u :: u in logins <==> TeamLogin(org.teams, u)
    ensures forall u :: u in Normalize(sp.login, logins) - users <==> TeamUser(sp.login, org.teams, u) && u !in users
  {
    hide TeamLogin;
  }

  lemma DupsOnSharedNames(lower: string -> string, dups: seq<(string, string)>)
    ensures |dups| > 0 <==> exists x :: Reported(lower, dups, x)
  {
    if |dups| > 0 {
      assert Reported(lower, dups, lower(dups[0].1));
    }
  }

  /** The walk's state names exactly the users, duplicates, open nested teams and dual-role teams of the tree. */
  lemma WalkDecides(norm: string -> string, teams: Teams, state: TeamWalkState)
    requires state.Tracks(Findings({}, multiset{}, multiset{}, multiset{}).Plus(Found(norm, teams, teams.byName.Keys, false)))
    ensures forall u :: u in state.members <==> TeamLogin(teams, u)
    ensures forall n :: n in state.duplicateNames <==> UsedTwice(teams, n)
    ensures forall n :: n in state.nestedNotClosed <==> OpenNestedTeam(teams, n)
    ensures forall n, users :: (n, users) in state.dualRoleTeams <==> DualRoleTeam(norm, teams, n, users)
  {
    hide Found, UsedTwice, OpenNestedTeam, DualRoleTeam, TeamLogin;
    forall n
      ensures n in state.members <==> TeamLogin(teams, n)
      ensures n in state.duplicateNames <==> UsedTwice(teams, n)
      ensures n in state.nestedNotClosed <==> OpenNestedTeam(teams, n)
    {
      WalkFindsOutsiders(norm, teams, n);
      WalkFindsDuplicates(norm, teams, n);
      WalkFindsOpenTeams(norm, teams, n);
      assert n in multiset(state.nestedNotClosed) <==> n in state.nestedNotClosed;
    }
    forall n, users
      ensures (n, users) in state.dualRoleTeams <==> DualRoleTeam(norm, teams, n, users)
    {
      WalkFindsDualRoles(norm, teams, n, users);
      assert (n, users) in multiset(state.dualRoleTeams) <==> (n, users) in state.dualRoleTeams;
    }
  }

  /**
   Sound and complete: whatever the map orders, exactly the broken rules are reported, each with exactly
   what breaks it; the check passes iff no rule is broken.
   */
  method CheckOrg(opt: Options, sp: Spelling, org: Org) returns (errs: seq<Problem>)
    ensures errs == [] <==> forall r :: !Breaks(opt, sp, org, r)
    ensures forall r :: Reports(errs, r) <==> Breaks(opt, sp, org, r)
    ensures forall e :: e in errs ==> Exact(opt, sp, org, e)
  {
    hide Breaks, Exact, Reports, Checked;
    errs := [];
    NothingChecked(opt, sp, org);
    errs := CheckAdmins(opt, sp, org, errs);
    errs := CheckTeams(opt, sp, org, errs);
    errs := CheckRepos(opt, sp, org, errs);
    AllChecked(opt, sp, org, errs);
  }
}
