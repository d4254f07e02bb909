/**
 The owners-aliases-bumper's pull request bookkeeping: find the bumper's pull request or create it, and
 close the superfluous ones. Slices are arrays with a length, filtered in place.
 */
module PullRequests {
  import opened Wrappers

  const OPEN := "open"
  const CLOSED := "closed"

  datatype PullRequest = PullRequest(number: int, head: string, base: string, state: string)

  const NO_PULL_REQUEST := PullRequest(0, "", "", "")

  datatype Error = NoRepo | NoPullRequests | NotCreated

  // ---------- In-place filters ----------

  /** The elements that are not to be deleted, in order. */
  function Without<T(!new)>(s: seq<T>, del: T -> bool): (t: seq<T>)
    ensures forall x :: x in t <==> x in s && !del(x)
    ensures |t| <= |s|
  {
    if s == [] then []
    else
      assert s == s[..|s| - 1] + [s[|s| - 1]];
      Without(s[..|s| - 1], del) + if del(s[|s| - 1]) then [] else [s[|s| - 1]]
  }

  /** Moves the kept elements of a[..n] to the front, in order, and clears what is left behind them. */
  method DeleteFunc<T(!new)>(a: array<T>, n: nat, del: T -> bool, zero: T) returns (m: nat)
    requires n <= a.Length
    modifies a
    ensures m <= n && a[..m] == Without(old(a[..n]), del)
    ensures forall i :: m <= i < n ==> a[i] == zero
    ensures a[n..] == old(a[n..])
  {
    hide Without;
    m := Compact(a, n, del);
    Clear(a, m, n, zero);
  }

  method Compact<T(!new)>(a: array<T>, n: nat, del: T -> bool) returns (m: nat)
    requires n <= a.Length
    modifies a
    ensures m <= n && a[..m] == Without(old(a[..n]), del)
    ensures a[n..] == old(a[n..])
  {
    hide Without;
    m := 0;
    ghost var was := a[..];
    assert a[..0] == [] && was[..0] == [];
    WithoutNothing(del);
    for i := 0 to n
      invariant m <= i
      invariant a[..m] == Without(was[..i], del)
      invariant forall k :: i <= k < a.Length ==> a[k] == was[k]
    {
      WithoutNext(was, i, del);
      if !del(a[i]) {
        a[m] := a[i];
        m := m + 1;
        assert a[..m] == a[..m - 1] + [was[i]];
      }
    }
    assert was[..n] == old(a[..n]);
  }

  method Clear<T>(a: array<T>, from: nat, to: nat, zero: T)
    requires from <= to <= a.Length
    modifies a
    ensures forall i :: 0 <= i < a.Length ==> a[i] == if from <= i < to then zero else old(a[i])
  {
    for i := from to to
      invariant forall k :: 0 <= k < a.Length ==> a[k] == if from <= k < i then zero else old(a[k])
    {
      a[i] := zero;
    }
  }

  lemma WithoutNothing<T(!new)>(del: T -> bool)
    ensures Without([], del) == []
  {
  }

  lemma WithoutNext<T(!new)>(s: seq<T>, i: nat, del: T -> bool)
    requires i < |s|
    ensures Without(s[..i + 1], del) == Without(s[..i], del) + if del(s[i]) then [] else [s[i]]
  {
    assert s[..i + 1][..i] == s[..i];
  }

  method Clone<T>(a: array<T>, n: nat) returns (b: array<T>)
    requires n <= a.Length
    ensures fresh(b) && b[..] == a[..n]
  {
    b := new T[n](i requires 0 <= i < n reads a => a[i]);
  }

  method Any<T(==)>(s: set<T>) returns (x: T)
    requires s != {}
    ensures x in s
  {
    x :| x in s;
  }

  // ---------- The server ----------

  predicate IsOpenOn(pr: PullRequest, branch: string) {
    pr.head == branch && pr.state == "open"
  }

  /** The pull requests of a repository, by number. */
  class Hub {
    var defaultBranch: string
    var prs: map<int, PullRequest>

    ghost predicate Valid()
      reads this
    {
      forall k :: k in prs ==> prs[k].number == k
    }

    method GetRepo() returns (r: Result<string, Error>)
      ensures r.Ok? ==> r.value == defaultBranch
      ensures r.Err? ==> r.error == NoRepo
    {
      if * {
        return Err(NoRepo);
      }
      r := Ok(defaultBranch);
    }

    /** Every pull request once, in an arbitrary order, in memory of the caller's own. */
    method GetPullRequests() returns (r: Result<array<PullRequest>, Error>)
      ensures r.Ok? ==> fresh(r.value) && Lists(r.value[..], prs)
      ensures r.Err? ==> r.error == NoPullRequests
      requires Valid()
    {
      if * {
        return Err(NoPullRequests);
      }
      var list: seq<PullRequest> := [];
      var rest := prs.Keys;
      while rest != {}
        invariant rest <= prs.Keys
        invariant Distinct(list) && forall pr :: pr in list <==> pr.number in prs && pr.number !in rest && prs[pr.number] == pr
        decreases |rest|
      {
        var k := Any(rest);
        rest := rest - {k};
        list := list + [prs[k]];
      }
      var a := new PullRequest[|list|](i requires 0 <= i < |list| => list[i]);
      assert a[..] == list;
      r := Ok(a);
    }

    /** Opens a pull request under a new number, or fails without a trace. */
    method CreatePullRequest(head: string, base: string) returns (r: Result<int, Error>)
      requires Valid()
      modifies `prs
      ensures r.Ok? ==> r.value !in old(prs) && prs == old(prs)[r.value := PullRequest(r.value, head, base, OPEN)]
      ensures r.Err? ==> r.error == NotCreated && prs == old(prs)
      ensures Valid()
    {
      if * {
        return Err(NotCreated);
      }
      var n := Unused(prs.Keys);
      prs := prs[n := PullRequest(n, head, base, OPEN)];
      r := Ok(n);
    }

    method ClosePullRequest(number: int) returns (ok: bool)
      requires Valid() && number in prs
      modifies `prs
      ensures prs == if ok then old(prs)[number := old(prs)[number].(state := CLOSED)] else old(prs)
      ensures Valid()
    {
      ok := *;
      if ok {
        prs := prs[number := prs[number].(state := CLOSED)];
      }
    }
  }

  method Unused(taken: set<int>) returns (n: int)
    ensures n !in taken
  {
    n := 0;
    var rest := taken;
    while rest != {}
      invariant rest <= taken && forall k :: k in taken && k !in rest ==> k < n
      decreases |rest|
    {
      var k := Any(rest);
      rest := rest - {k};
      n := if k < n then n else k + 1;
    }
  }

  ghost predicate Distinct(s: seq<PullRequest>) {
    forall i, j :: 0 <= i < j < |s| ==> s[i].number != s[j].number
  }

  function Numbers(s: seq<PullRequest>): set<int> {
    set pr | pr in s :: pr.number
  }

  /** The pull requests with these numbers closed, nothing else touched. */
  function Closed(prs: map<int, PullRequest>, numbers: set<int>): map<int, PullRequest> {
    map k | k in prs :: if k in numbers then prs[k].(state := "closed") else prs[k]
  }

  // ---------- Find or create ----------

  datatype Config = Config(branch: string)

  /** Tries to close each of a[lo..hi], carrying on when that fails. */
  method CloseEach(hub: Hub, a: array<PullRequest>, lo: nat, hi: nat) returns (ghost failed: set<int>)
    requires hub.Valid() && lo <= hi <= a.Length
    requires Distinct(a[lo..hi]) && Numbers(a[lo..hi]) <= hub.prs.Keys
    modifies hub`prs
    ensures hub.Valid() && failed <= Numbers(a[lo..hi])
    ensures hub.prs == Closed(old(hub.prs), Numbers(a[lo..hi]) - failed)
  {
    failed := {};
    ghost var all := a[lo..hi];
    for i := lo to hi
      invariant hub.Valid() && failed <= Numbers(all[..i - lo])
      invariant hub.prs == Closed(old(hub.prs), Numbers(all[..i - lo]) - failed)
    {
      assert a[i] == all[i - lo];
      NumbersNext(all, i - lo);
      hide Numbers, Distinct;
      var ok := hub.ClosePullRequest(a[i].number);
      if !ok {
        failed := failed + {a[i].number};
      }
    }
    assert all[..hi - lo] == all;
  }

  lemma NumbersNext(s: seq<PullRequest>, i: nat)
    requires i < |s| && Distinct(s)
    ensures Numbers(s[..i + 1]) == Numbers(s[..i]) + {s[i].number} && s[i].number !in Numbers(s[..i]) && s[i].number in Numbers(s)
  {
    assert s[..i + 1] == s[..i] + [s[i]];
    assert s[i] in s;
  }

  /** The numbers of the open pull requests from the branch. */
  function Mine(prs: map<int, PullRequest>, branch: string): set<int> {
    set k | k in prs && IsOpenOn(prs[k], branch)
  }

  /** Those of them that target the base. */
  function MineOnto(prs: map<int, PullRequest>, branch: string, base: string): set<int> {
    set k | k in prs && IsOpenOn(prs[k], branch) && prs[k].base == base
  }

  /** The server after the pull request r was found or created. */
  ghost function WithKept(was: map<int, PullRequest>, branch: string, base: string, r: int): map<int, PullRequest> {
    if MineOnto(was, branch, base) != {} then was else was[r := PullRequest(r, branch, base, "open")]
  }

  /** r is the found pull request, or a new one when there was none to find. */
  ghost predicate IsKept(was: map<int, PullRequest>, branch: string, base: string, r: int) {
    if MineOnto(was, branch, base) != {} then r in MineOnto(was, branch, base) else r !in was
  }

  /** Creates the pull request, or keeps the first of those found and closes the rest of them. */
  method KeepOne(hub: Hub, cfg: Config, base: string, onto: array<PullRequest>, m: nat)
      returns (r: Result<int, Error>, ghost failed: set<int>)
    requires hub.Valid() && m <= onto.Length
    requires Distinct(onto[..m]) && Numbers(onto[..m]) == MineOnto(hub.prs, cfg.branch, base)
    modifies hub`prs
    ensures hub.Valid()
    ensures r.Err? ==> hub.prs == old(hub.prs)
    ensures r.Ok? ==>
              && IsKept(old(hub.prs), cfg.branch, base, r.value)
              && failed <= MineOnto(old(hub.prs), cfg.branch, base) - {r.value}
              && hub.prs == Closed(WithKept(old(hub.prs), cfg.branch, base, r.value),
                                   MineOnto(old(hub.prs), cfg.branch, base) - {r.value} - failed)
  {
    hide Distinct, Numbers, Closed;
    failed := {};
    if m == 0 {
      NoneListed(onto[..m]);
      r := hub.CreatePullRequest(cfg.branch, base);
      if r.Ok? {
        ClosedNone(hub.prs);
        assert MineOnto(old(hub.prs), cfg.branch, base) - {r.value} - failed == {};
      }
      return r, {};
    }
    var prNum := onto[0].number;
    FirstAndRest(onto[..m]);
    assert onto[1..m] == onto[..m][1..];
    failed := CloseEach(hub, onto, 1, m);
    r := Ok(prNum);
  }

  /**
   One pull request from the branch onto the default branch survives, found or created; every other open
   one from the branch is closed, except those whose closing failed; nothing else changes.
   */
  method FindOrCreatePR(hub: Hub, cfg: Config) returns (r: Result<int, Error>, ghost failed: set<int>)
    requires hub.Valid()
    modifies hub`prs
    ensures hub.Valid()
    ensures r.Err? ==> hub.prs == old(hub.prs)
    ensures r.Ok? ==>
              && IsKept(old(hub.prs), cfg.branch, hub.defaultBranch, r.value)
              && failed <= Mine(old(hub.prs), cfg.branch) - {r.value}
              && hub.prs == Closed(WithKept(old(hub.prs), cfg.branch, hub.defaultBranch, r.value),
                                   Mine(old(hub.prs), cfg.branch) - {r.value} - failed)
  {
    hide Without, Numbers, Distinct, Mine, MineOnto, Closed, WithKept, IsKept;
    failed := {};
    var repo := hub.GetRepo();
    if repo.Err? {
      return Err(repo.error), {};
    }
    var list := hub.GetPullRequests();
    if list.Err? {
      return Err(list.error), {};
    }
    var prs, base := list.value, repo.value;
    ghost var was, all := hub.prs, prs[..];
    assert prs[..prs.Length] == all;
    var notMine := (pr: PullRequest) => pr.head != cfg.branch || pr.state != OPEN;
    var n := DeleteFunc(prs, prs.Length, notMine, NO_PULL_REQUEST);
    ghost var mine := prs[..n];
    var prsDefaultBranch := Clone(prs, n);
    assert prsDefaultBranch[..n] == mine;
    var elsewhere := (pr: PullRequest) => pr.base != base;
    var m := DeleteFunc(prsDefaultBranch, n, elsewhere, NO_PULL_REQUEST);
    ListedNumbers(was, all, cfg.branch, base, notMine, elsewhere);
    r, failed := KeepOne(hub, cfg, base, prsDefaultBranch, m);
    if r.Err? {
      return r, {};
    }
    var here := (pr: PullRequest) => pr.base == base;
    OtherNumbers(was, all, cfg.branch, base, notMine, here);
    var k := DeleteFunc(prs, n, here, NO_PULL_REQUEST);
    assert prs[0..k] == prs[..k];
    OthersStay(was, cfg.branch, base, r.value, failed);
    ghost var failedOthers := CloseEach(hub, prs, 0, k);
    AllClosed(was, cfg.branch, base, r.value, failed, failedOthers);
    failed := failed + failedOthers;
  }

  /** The pull requests onto other branches are still there when their turn comes. */
  lemma OthersStay(was: map<int, PullRequest>, branch: string, base: string, r: int, failed: set<int>)
    ensures Mine(was, branch) - MineOnto(was, branch, base)
         <= Closed(WithKept(was, branch, base, r), MineOnto(was, branch, base) - {r} - failed).Keys
  {
  }

  lemma AllClosed(was: map<int, PullRequest>, branch: string, base: string, r: int, failed: set<int>, failedOthers: set<int>)
    requires IsKept(was, branch, base, r)
    requires failed <= MineOnto(was, branch, base) - {r} && failedOthers <= Mine(was, branch) - MineOnto(was, branch, base)
    ensures failed + failedOthers <= Mine(was, branch) - {r}
    ensures Closed(Closed(WithKept(was, branch, base, r), MineOnto(was, branch, base) - {r} - failed),
                   Mine(was, branch) - MineOnto(was, branch, base) - failedOthers)
         == Closed(WithKept(was, branch, base, r), Mine(was, branch) - {r} - (failed + failedOthers))
  {
    hide Closed, WithKept, IsOpenOn;
    ClosedTwice(WithKept(was, branch, base, r), MineOnto(was, branch, base) - {r} - failed,
                Mine(was, branch) - MineOnto(was, branch, base) - failedOthers);
    assert MineOnto(was, branch, base) - {r} - failed + (Mine(was, branch) - MineOnto(was, branch, base) - failedOthers)
        == Mine(was, branch) - {r} - (failed + failedOthers);
  }

  lemma ClosedNone(prs: map<int, PullRequest>)
    ensures Closed(prs, {}) == prs
  {
  }

  /**
   When every close succeeds, exactly one open pull request from the branch is left, the returned one, and
   it targets the default branch.
   */
  lemma ExactlyOneLeft(was: map<int, PullRequest>, now: map<int, PullRequest>, branch: string, base: string, r: int)
    requires IsKept(was, branch, base, r)
    requires now == Closed(WithKept(was, branch, base, r), Mine(was, branch) - {r})
    ensures Mine(now, branch) == {r} && now[r].base == base
    ensures forall k :: k in was && !IsOpenOn(was[k], branch) ==> k in now && now[k] == was[k]
    ensures now.Keys == was.Keys + {r}
  {
    assert |CLOSED| != |OPEN|;
    var mine := Mine(was, branch);
    assert r in now && IsOpenOn(now[r], branch);
    forall k | k in was && k != r
      ensures !IsOpenOn(now[k], branch)
    {
      assert k in mine <==> IsOpenOn(was[k], branch);
    }
  }

  /** From there on a further run keeps that pull request and closes nothing. */
  lemma NextRunKeeps(now: map<int, PullRequest>, branch: string, base: string, r: int, again: int)
    requires r in now && Mine(now, branch) == {r} && now[r].base == base
    requires IsKept(now, branch, base, again)
    ensures again == r && Closed(WithKept(now, branch, base, again), Mine(now, branch) - {again}) == now
  {
    assert r in Mine(now, branch);
    assert MineOnto(now, branch, base) == {r};
    ClosedNone(now);
    assert Mine(now, branch) - {r} == {};
  }

  lemma {:induction false} WithoutDistinct(s: seq<PullRequest>, del: PullRequest -> bool)
    requires Distinct(s)
    ensures Distinct(Without(s, del))
  {
    if s == [] {
    } else {
      var front := s[..|s| - 1];
      WithoutDistinct(front, del);
      assert forall x :: x in front ==> x.number != s[|s| - 1].number;
      forall i | 0 <= i < |Without(front, del)|
        ensures Without(front, del)[i].number != s[|s| - 1].number
      {
        assert Without(front, del)[i] in Without(front, del);
      }
    }
  }

  /** The list holds every pull request of the server once. */
  ghost predicate Lists(all: seq<PullRequest>, prs: map<int, PullRequest>) {
    Distinct(all) && forall pr :: pr in all <==> pr.number in prs && prs[pr.number] == pr
  }

  lemma ListedNumbers(prs: map<int, PullRequest>, all: seq<PullRequest>, branch: string, base: string,
                      notMine: PullRequest -> bool, elsewhere: PullRequest -> bool)
    requires (forall k :: k in prs ==> prs[k].number == k) && Lists(all, prs)
    requires forall pr :: notMine(pr) <==> !IsOpenOn(pr, branch)
    requires forall pr :: elsewhere(pr) <==> pr.base != base
    ensures Distinct(Without(Without(all, notMine), elsewhere))
    ensures Numbers(Without(Without(all, notMine), elsewhere)) == MineOnto(prs, branch, base)
  {
    hide Distinct, IsOpenOn;
    var onto := Without(Without(all, notMine), elsewhere);
    WithoutDistinct(all, notMine);
    WithoutDistinct(Without(all, notMine), elsewhere);
    forall k | k in MineOnto(prs, branch, base)
      ensures k in Numbers(onto)
    {
      assert prs[k] in onto;
    }
  }

  lemma OtherNumbers(prs: map<int, PullRequest>, all: seq<PullRequest>, branch: string, base: string,
                     notMine: PullRequest -> bool, here: PullRequest -> bool)
    requires (forall k :: k in prs ==> prs[k].number == k) && Lists(all, prs)
    requires forall pr :: notMine(pr) <==> !IsOpenOn(pr, branch)
    requires forall pr :: here(pr) <==> pr.base == base
    ensures Distinct(Without(Without(all, notMine), here))
    ensures Numbers(Without(Without(all, notMine), here)) == Mine(prs, branch) - MineOnto(prs, branch, base)
  {
    hide Distinct, IsOpenOn;
    var others := Without(Without(all, notMine), here);
    WithoutDistinct(all, notMine);
    WithoutDistinct(Without(all, notMine), here);
    forall k | k in Mine(prs, branch) - MineOnto(prs, branch, base)
      ensures k in Numbers(others)
    {
      assert prs[k] in others;
    }
  }

  lemma FirstAndRest(s: seq<PullRequest>)
    requires Distinct(s) && s != []
    ensures s[0].number in Numbers(s) && Distinct(s[1..]) && Numbers(s[1..]) == Numbers(s) - {s[0].number}
  {
    assert s == [s[0]] + s[1..];
    forall pr | pr in s[1..]
      ensures pr.number != s[0].number
    {
    }
    assert s[0] in s;
  }

  lemma NoneListed(s: seq<PullRequest>)
    requires |s| == 0
    ensures Numbers(s) == {}
  {
  }

  lemma ClosedTwice(prs: map<int, PullRequest>, a: set<int>, b: set<int>)
    ensures Closed(Closed(prs, a), b) == Closed(prs, a + b)
  {
  }
}
