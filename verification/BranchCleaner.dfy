/**
 The branch-cleaner: which branches of a repository it deletes, and which it keeps. The server is an
 object whose calls may fail at any time.
 */
module BranchCleaner {
  import opened BranchRanking
  import opened Collections
  import opened Sorting
  import opened Wrappers

  datatype Error = ServerError | NoVersion | Crash

  datatype Options = Options(matches: string -> bool, keepBranches: nat, ignoreOpenPRs: bool, releaseBranchMode: bool)

  /** The repository as the server describes it. */
  datatype RepoInfo = RepoInfo(owner: string, name: string, fork: bool)

  datatype PullRequest = PullRequest(headOwner: string, headName: string, headRef: string, base: string, isOpen: bool)

  predicate Distinct(s: seq<string>) {
    forall i, j :: 0 <= i < j < |s| ==> s[i] != s[j]
  }

  // ---------- The server ----------

  class GitHub {
    const info: RepoInfo
    /** Release tags, by the branch's version. */
    const tags: set<string>
    /** The pull requests of the repository, and of the one it is a fork of. */
    const prs: seq<PullRequest>
    const upstreamPrs: seq<PullRequest>
    var heads: set<string>
    var protection: set<string>

    constructor (info: RepoInfo, tags: set<string>, prs: seq<PullRequest>, upstreamPrs: seq<PullRequest>, heads: set<string>,
                 protection: set<string>)
    {
      this.info, this.tags, this.prs, this.upstreamPrs := info, tags, prs, upstreamPrs;
      this.heads, this.protection := heads, protection;
    }

    method GetRepo() returns (r: Result<RepoInfo, Error>)
      ensures r == Ok(info) || r == Err(ServerError)
    {
      if * {
        return Err(ServerError);
      }
      r := Ok(info);
    }

    /** The branches with or without protection, in an arbitrary order. */
    method GetBranches(onlyProtected: bool) returns (r: Result<seq<string>, Error>)
      ensures r.Ok? ==> Distinct(r.value) && forall b :: b in r.value <==> b in heads && (b in protection <==> onlyProtected)
      ensures r.Err? ==> r.error == ServerError
    {
      if * {
        return Err(ServerError);
      }
      var wanted := if onlyProtected then heads * protection else heads - protection;
      var list: seq<string> := [];
      var rest := wanted;
      while rest != {}
        invariant rest <= wanted && Distinct(list)
        invariant forall b :: b in list <==> b in wanted && b !in rest
        decreases |rest|
      {
        var b :| b in rest;
        rest := rest - {b};
        list := list + [b];
      }
      r := Ok(list);
    }

    method GetPullRequests(upstream: bool) returns (r: Result<seq<PullRequest>, Error>)
      ensures r == Ok(if upstream then upstreamPrs else prs) || r == Err(ServerError)
    {
      if * {
        return Err(ServerError);
      }
      r := Ok(if upstream then upstreamPrs else prs);
    }

    method GetRef(tag: string) returns (r: Result<bool, Error>)
      ensures r == Ok(tag in tags) || r == Err(ServerError)
    {
      if * {
        return Err(ServerError);
      }
      r := Ok(tag in tags);
    }

    method GetBranchProtection(b: string) returns (r: Result<bool, Error>)
      ensures r == Ok(b in protection) || r == Err(ServerError)
    {
      if * {
        return Err(ServerError);
      }
      r := Ok(b in protection);
    }

    method RemoveBranchProtection(b: string) returns (ok: bool)
      modifies `protection
      ensures protection == if ok then old(protection) - {b} else old(protection)
    {
      ok := *;
      if ok {
        protection := protection - {b};
      }
    }

    method DeleteRef(b: string) returns (ok: bool)
      modifies `heads
      ensures heads == if ok then old(heads) - {b} else old(heads)
    {
      ok := *;
      if ok {
        heads := heads - {b};
      }
    }
  }

  // ---------- What is to happen ----------

  /** An open pull request onto the branch, or, in a fork, any listed one from it to the upstream repository. */
  predicate Blocked(opt: Options, repo: RepoInfo, prs: seq<PullRequest>, upstreamPrs: seq<PullRequest>, b: string) {
    && !opt.ignoreOpenPRs
    && (|| (exists i :: 0 <= i < |prs| && prs[i].base == b && prs[i].isOpen)
        || (repo.fork && exists pr :: pr in upstreamPrs && pr == PullRequest(repo.owner, repo.name, b, pr.base, pr.isOpen)))
  }

  /** The version in a branch's name, as a tag, if there is one. */
  type Versions = string -> Option<string>

  /** The branches are the candidates: matching, released if that is asked for, ranked. */
  ghost predicate Candidates(opt: Options, tagOf: Versions, heads: set<string>, tags: set<string>, cands: seq<string>) {
    && Distinct(cands) && SortedBy(Higher, cands)
    && forall b :: b in cands <==> b in heads && opt.matches(b) && (opt.releaseBranchMode ==> tagOf(b).Some? && tagOf(b).value in tags)
  }

  /** The branches the run has to delete. */
  ghost predicate Doomed(opt: Options, repo: RepoInfo, prs: seq<PullRequest>, upstreamPrs: seq<PullRequest>, cands: seq<string>, b: string) {
    exists i :: opt.keepBranches <= i < |cands| && cands[i] == b && !Blocked(opt, repo, prs, upstreamPrs, b)
  }

  // ---------- The cleaner ----------

  class Cleaner {
    const server: GitHub
    const options: Options
    const tagOf: Versions
    var repo: RepoInfo

    constructor (server: GitHub, options: Options, tagOf: Versions)
      ensures this.server == server && this.options == options && this.tagOf == tagOf
    {
      this.server, this.options, this.tagOf := server, options, tagOf;
      repo := RepoInfo("", "", false);
    }

    /** The matching branches, highest rank first; branches that rank equal come in an arbitrary order. */
    method GetMatchingBranches() returns (r: Result<seq<string>, Error>)
      ensures r.Ok? ==> Distinct(r.value) && SortedBy(Higher, r.value)
                        && forall b :: b in r.value <==> b in server.heads && options.matches(b)
      ensures r == Err(Crash) ==> exists b, c :: {b, c} <= server.heads && options.matches(b) && options.matches(c) && b != c && !Comparable(b)
      ensures r.Ok? && |r.value| > 1 ==> forall b :: b in r.value ==> Comparable(b)
      ensures r.Err? ==> r.error in {ServerError, Crash}
    {
      var unprotected := server.GetBranches(false);
      if unprotected.Err? {
        return unprotected;
      }
      var protected := server.GetBranches(true);
      if protected.Err? {
        return protected;
      }
      var branches := unprotected.value + protected.value;
      DistinctUnion(unprotected.value, protected.value);
      assert forall b :: b in branches <==> b in unprotected.value || b in protected.value;
      var matching := Matching(branches);
      if |matching| > 1 {
        var incomparable := AnyIncomparable(matching);
        if incomparable {
          ghost var b :| b in matching && !Comparable(b);
          ghost var c := if matching[0] == b then matching[1] else matching[0];
          assert {b, c} <= server.heads;
          return Err(Crash);
        }
      }
      RankingIsAnOrder();
      SortingSucceeds(Higher, matching);
      var sorted: seq<string> :| Sorts(Higher, matching, sorted);
      SameSet(matching, sorted);
      r := Ok(sorted);
    }

    method Matching(branches: seq<string>) returns (matching: seq<string>)
      requires Distinct(branches)
      ensures Distinct(matching) && forall b :: b in matching <==> b in branches && options.matches(b)
    {
      matching := [];
      for i := 0 to |branches|
        invariant Distinct(matching) && forall b :: b in matching <==> b in branches[..i] && options.matches(b)
      {
        if options.matches(branches[i]) {
          matching := matching + [branches[i]];
        }
      }
    }

    method AnyIncomparable(names: seq<string>) returns (some: bool)
      ensures some <==> exists b :: b in names && !Comparable(b)
    {
      for i := 0 to |names|
        invariant forall b :: b in names[..i] ==> Comparable(b)
      {
        if !Comparable(names[i]) {
          return true;
        }
      }
      some := false;
    }

    /** Keeps the branches whose version has a release tag, in order; a name without a version fails the run. */
    method IdentifyBranchesWithReleaseTags(branches: seq<string>) returns (r: Result<seq<string>, Error>)
      requires Distinct(branches) && SortedBy(Higher, branches)
      ensures r.Ok? ==> Distinct(r.value) && SortedBy(Higher, r.value)
                        && (forall b :: b in branches ==> tagOf(b).Some?)
                        && (forall b :: b in r.value <==> b in branches && tagOf(b).Some? && tagOf(b).value in server.tags)
      ensures r == Err(NoVersion) ==> exists b :: b in branches && tagOf(b) == None
      ensures r.Err? ==> r.error in {ServerError, NoVersion}
    {
      hide Higher;
      var tagged: seq<string> := [];
      for i := 0 to |branches|
        invariant Distinct(tagged) && SortedBy(Higher, tagged)
        invariant forall b :: b in branches[..i] ==> tagOf(b).Some?
        invariant forall b :: b in tagged <==> b in branches[..i] && tagOf(b).Some? && tagOf(b).value in server.tags
      {
        var branch := branches[i];
        assert forall b :: b in tagged ==> b in branches[..i];
        if tagOf(branch).None? {
          return Err(NoVersion);
        }
        var ref := server.GetRef(tagOf(branch).value);
        if ref.Err? {
          return Err(ref.error);
        }
        if ref.value {
          RankedLast(branches, i, tagged);
          tagged := tagged + [branch];
        }
      }
      r := Ok(tagged);
    }

    /** Whether nothing blocks the deletion; the upstream repository is asked only by a fork, and only if needed. */
    method CheckBranchToDelete(branch: string) returns (r: Result<bool, Error>)
      ensures r.Ok? ==> r.value == !Blocked(options, repo, server.prs, server.upstreamPrs, branch)
      ensures r.Err? ==> r.error == ServerError
    {
      if options.ignoreOpenPRs {
        return Ok(true);
      }
      var openPRs := false;
      var prs := server.GetPullRequests(false);
      if prs.Err? {
        return Err(prs.error);
      }
      for i := 0 to |prs.value|
        invariant !openPRs && forall k :: 0 <= k < i ==> !(prs.value[k].base == branch && prs.value[k].isOpen)
      {
        if prs.value[i].base == branch && prs.value[i].isOpen {
          openPRs := true;
          break;
        }
      }
      if repo.fork && !openPRs {
        prs := server.GetPullRequests(true);
        if prs.Err? {
          return Err(prs.error);
        }
        for i := 0 to |prs.value|
          invariant !openPRs
          invariant forall k :: 0 <= k < i ==> prs.value[k] != PullRequest(repo.owner, repo.name, branch, prs.value[k].base, prs.value[k].isOpen)
        {
          var pr := prs.value[i];
          if pr.headOwner == repo.owner && pr.headName == repo.name && pr.headRef == branch {
            openPRs := true;
            break;
          }
        }
      }
      r := Ok(!openPRs);
    }

    /** The doomed branches, highest rank first. */
    method IdentifyBranchesToDelete(branches: seq<string>) returns (r: Result<seq<string>, Error>)
      requires Distinct(branches) && SortedBy(Higher, branches)
      ensures r.Ok? ==> Distinct(r.value) && SortedBy(Higher, r.value)
                        && forall b :: b in r.value <==> Doomed(options, repo, server.prs, server.upstreamPrs, branches, b)
      ensures r.Err? ==> r.error == ServerError
    {
      hide Blocked, Higher;
      var branchesToDelete: seq<string> := [];
      if |branches| <= options.keepBranches {
        return Ok(branchesToDelete);
      }
      for i := options.keepBranches to |branches|
        invariant Distinct(branchesToDelete) && SortedBy(Higher, branchesToDelete)
        invariant forall b :: b in branchesToDelete <==>
                    exists k :: options.keepBranches <= k < i && branches[k] == b
                                && !Blocked(options, repo, server.prs, server.upstreamPrs, b)
      {
        var deleteBranch := CheckBranchToDelete(branches[i]);
        if deleteBranch.Err? {
          return Err(deleteBranch.error);
        }
        if deleteBranch.value {
          forall b | b in branchesToDelete
            ensures b in branches[..i]
          {
          }
          RankedLast(branches, i, branchesToDelete);
          branchesToDelete := branchesToDelete + [branches[i]];
        }
      }
      r := Ok(branchesToDelete);
    }

    /** Removes the protection rules of the branches, up to the first failure. */
    method RemoveBranchProtection(branches: seq<string>) returns (ok: bool)
      modifies server`protection
      ensures ok ==> server.protection == old(server.protection) - SetOf(branches)
      ensures old(server.protection) - SetOf(branches) <= server.protection <= old(server.protection)
    {
      for i := 0 to |branches|
        invariant server.protection == old(server.protection) - SetOf(branches[..i])
      {
        assert branches[..i + 1] == branches[..i] + [branches[i]];
        var branchProtection := server.GetBranchProtection(branches[i]);
        if branchProtection.Err? {
          return false;
        }
        if !branchProtection.value {
          continue;
        }
        var removed := server.RemoveBranchProtection(branches[i]);
        if !removed {
          return false;
        }
      }
      assert branches[..|branches|] == branches;
      ok := true;
    }

    /** Deletes the branches in order, up to the first failure. */
    method DeleteBranches(branches: seq<string>) returns (ok: bool, ghost done: nat)
      modifies server`heads
      ensures done <= |branches| && (ok <==> done == |branches|)
      ensures server.heads == old(server.heads) - SetOf(branches[..done])
    {
      done := 0;
      for i := 0 to |branches|
        invariant done == i && server.heads == old(server.heads) - SetOf(branches[..i])
      {
        assert branches[..i + 1] == branches[..i] + [branches[i]];
        var deleted := server.DeleteRef(branches[i]);
        if !deleted {
          return false, i;
        }
        done := i + 1;
      }
      ok := true;
    }

    /**
     A run without error deletes exactly the doomed branches; a run with an error deletes none but
     doomed ones, those of higher rank first. Nothing else is touched, except the protection of doomed branches in release mode.
     */
    method Run() returns (e: Option<Error>, ghost cands: seq<string>)
      modifies this, server`heads, server`protection
      ensures server.heads <= old(server.heads) && server.protection <= old(server.protection)
      ensures server.heads != old(server.heads) || e == None ==>
                && repo == server.info && Candidates(options, tagOf, old(server.heads), server.tags, cands)
                && (forall b :: b in old(server.heads) - server.heads ==>
                      Doomed(options, repo, server.prs, server.upstreamPrs, cands, b))
      ensures e == None ==>
                forall b :: Doomed(options, repo, server.prs, server.upstreamPrs, cands, b) ==>
                  b !in server.heads && (options.releaseBranchMode ==> b !in server.protection)
      ensures forall b, c ::
                && b in old(server.heads) - server.heads && c in server.heads
                && Doomed(options, repo, server.prs, server.upstreamPrs, cands, c)
                ==> !Higher(c, b)
      ensures !options.releaseBranchMode ==> server.protection == old(server.protection)
      ensures forall b :: b in old(server.protection) - server.protection ==>
                repo == server.info && Doomed(options, repo, server.prs, server.upstreamPrs, cands, b)
    {
      hide Doomed, Blocked, Higher;
      cands := [];
      var info := server.GetRepo();
      if info.Err? {
        return Some(info.error), [];
      }
      repo := info.value;
      var matching := GetMatchingBranches();
      if matching.Err? {
        return Some(matching.error), [];
      }
      var branches := matching.value;
      if options.releaseBranchMode {
        var tagged := IdentifyBranchesWithReleaseTags(branches);
        if tagged.Err? {
          return Some(tagged.error), [];
        }
        branches := tagged.value;
      }
      cands := branches;
      var toDelete := IdentifyBranchesToDelete(branches);
      if toDelete.Err? {
        return Some(toDelete.error), cands;
      }
      if options.releaseBranchMode {
        var removed := RemoveBranchProtection(toDelete.value);
        if !removed {
          return Some(ServerError), cands;
        }
      }
      var ok, done := DeleteBranches(toDelete.value);
      assert toDelete.value[..|toDelete.value|] == toDelete.value;
      DeletedFirst(toDelete.value, done);
      e := if ok then None else Some(ServerError);
    }
  }

  lemma DeletedFirst(s: seq<string>, done: nat)
    requires done <= |s| && SortedBy(Higher, s)
    ensures forall b, c :: b in SetOf(s[..done]) && c in s && c !in SetOf(s[..done]) ==> !Higher(c, b)
  {
    hide Higher;
    forall k | 0 <= k < done
      ensures s[k] in SetOf(s[..done])
    {
      assert s[..done][k] == s[k];
    }
    forall b, c | b in SetOf(s[..done]) && c in s && c !in SetOf(s[..done])
      ensures !Higher(c, b)
    {
      var i :| 0 <= i < done && s[..done][i] == b;
      var j :| 0 <= j < |s| && s[j] == c;
      assert s[i] == b && i < j;
    }
  }

  lemma RankedLast(branches: seq<string>, i: nat, some: seq<string>)
    requires i < |branches| && SortedBy(Higher, branches) && SortedBy(Higher, some)
    requires forall b :: b in some ==> b in branches[..i]
    ensures SortedBy(Higher, some + [branches[i]])
  {
    hide Higher;
    forall k | 0 <= k < |some|
      ensures !Higher(branches[i], some[k])
    {
      assert some[k] in branches[..i];
      var j :| 0 <= j < i && branches[..i][j] == some[k];
    }
  }

  lemma DistinctUnion(s: seq<string>, t: seq<string>)
    requires Distinct(s) && Distinct(t) && forall b :: b in s ==> b !in t
    ensures Distinct(s + t)
  {
    forall i, j | 0 <= i < j < |s + t|
      ensures (s + t)[i] != (s + t)[j]
    {
      if i < |s| <= j {
        assert (s + t)[i] in s && (s + t)[j] in t;
      }
    }
  }

  /** Distinct branches stay distinct when reordered. */
  lemma SameSet(s: seq<string>, t: seq<string>)
    requires Distinct(s) && Sorts(Higher, s, t)
    ensures Distinct(t) && SortedBy(Higher, t) && |t| == |s| && forall b :: b in t <==> b in s
  {
    assert |t| == |multiset(t)| == |multiset(s)| == |s|;
    forall b
      ensures b in t <==> b in s
    {
      assert b in t <==> b in multiset(t);
      assert b in s <==> b in multiset(s);
    }
    if i, j :| 0 <= i < j < |t| && t[i] == t[j] {
      SeenTwice(t, i, j, t[i]);
      SeenOnce(s, t[i]);
      assert false;
    }
  }

  lemma {:induction false} SeenOnce(s: seq<string>, x: string)
    requires Distinct(s)
    ensures multiset(s)[x] <= 1
  {
    if s == [] {
    } else {
      var front := s[..|s| - 1];
      assert s == front + [s[|s| - 1]];
      SeenOnce(front, x);
      if s[|s| - 1] == x {
        assert x !in front;
        assert x !in multiset(front);
      }
    }
  }

  lemma {:induction false} DistinctCount(s: seq<string>)
    requires Distinct(s)
    ensures |SetOf(s)| == |s|
  {
    if s == [] {
    } else {
      var front := s[..|s| - 1];
      DistinctCount(front);
      assert s == front + [s[|s| - 1]];
      assert SetOf(s) == SetOf(front) + {s[|s| - 1]};
    }
  }

  lemma Included(a: set<string>, b: set<string>)
    requires a <= b
    ensures |a| <= |b|
  {
    assert b == a + (b - a);
  }

  /** The other candidates that survive a complete run and rank no lower than b. */
  ghost function KeptNoLower(opt: Options, repo: RepoInfo, prs: seq<PullRequest>, upstreamPrs: seq<PullRequest>, cands: seq<string>,
                             b: string): set<string> {
    set c | c in cands && c != b && !Higher(b, c) && !Doomed(opt, repo, prs, upstreamPrs, cands, c)
  }

  ghost function Above(cands: seq<string>, b: string): set<string> {
    set c | c in cands && Higher(c, b)
  }

  /** Retention: every deleted branch leaves behind at least `keepBranches` candidates that rank no lower. */
  lemma Retention(opt: Options, repo: RepoInfo, prs: seq<PullRequest>, upstreamPrs: seq<PullRequest>, cands: seq<string>, b: string)
    requires Distinct(cands) && SortedBy(Higher, cands) && Doomed(opt, repo, prs, upstreamPrs, cands, b)
    ensures |KeptNoLower(opt, repo, prs, upstreamPrs, cands, b)| >= opt.keepBranches
  {
    hide Higher, Blocked;
    var first := cands[..opt.keepBranches];
    forall c | c in first
      ensures c in KeptNoLower(opt, repo, prs, upstreamPrs, cands, b)
    {
      var k :| 0 <= k < |first| && first[k] == c;
      assert cands[k] == c;
    }
    DistinctCount(first);
    Included(SetOf(first), KeptNoLower(opt, repo, prs, upstreamPrs, cands, b));
  }

  /** And no more is kept than that: an unblocked candidate with `keepBranches` above it is deleted, however ties are sorted. */
  lemma EnoughAboveIsDoomed(opt: Options, repo: RepoInfo, prs: seq<PullRequest>, upstreamPrs: seq<PullRequest>, cands: seq<string>, b: string)
    requires Distinct(cands) && SortedBy(Higher, cands) && b in cands && !Blocked(opt, repo, prs, upstreamPrs, b)
    requires |Above(cands, b)| >= opt.keepBranches
    ensures Doomed(opt, repo, prs, upstreamPrs, cands, b)
  {
    hide Higher, Blocked;
    var i :| 0 <= i < |cands| && cands[i] == b;
    RankingIsAnOrder();
    forall c | c in Above(cands, b)
      ensures c in SetOf(cands[..i])
    {
      var k :| 0 <= k < |cands| && cands[k] == c;
      assert k == i ==> !Higher(c, b);
      assert k < i && cands[..i][k] == c;
    }
    DistinctCount(cands[..i]);
    Included(Above(cands, b), SetOf(cands[..i]));
  }
}
