/** The team tree of an organisation, and the places in it. */
module OrgTeams {
  import opened Collections
  import opened Wrappers

  datatype Privacy = Closed | Secret

  datatype Team = Team(members: seq<string>, maintainers: seq<string>, privacy: Option<Privacy>, previously: seq<string>, children: Teams)

  datatype Teams = Teams(byName: map<string, Team>)

  function Normalize(norm: string -> string, s: set<string>): set<string> {
    set x | x in s :: norm(x)
  }

  /** The team at the end of a path of team names. */
  ghost function At(teams: Teams, path: seq<string>): Option<Team>
    decreases |path|
  {
    if path == [] || path[0] !in teams.byName then None
    else if |path| == 1 then Some(teams.byName[path[0]])
    else At(teams.byName[path[0]].children, path[1..])
  }

  function Logins(t: Team): set<string> {
    SetOf(t.members) + SetOf(t.maintainers)
  }

  lemma Below(teams: Teams, k: string, p: seq<string>)
    requires k in teams.byName && p != []
    ensures At(teams, [k] + p) == At(teams.byName[k].children, p)
  {
    assert ([k] + p)[1..] == p;
  }
}
