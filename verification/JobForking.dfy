/**
 What the job-forker makes of a directory of forked job files: job rewriting on values, one run over
 all repositories, and when repeated runs converge.
 */
module JobForking {
  const FORK := "fork-per-release"
  const FORKED := "created-by-job-forker"

  datatype ExtraRef = ExtraRef(orgRepo: string, baseRef: string)

  /** A presubmit or postsubmit; `rest` stands for the fields the forker does not look at. */
  datatype Job = Job(name: string, annotations: map<string, string>, branches: seq<string>, skipBranches: seq<string>, rest: string)

  datatype Periodic = Periodic(name: string, annotations: map<string, string>, extraRefs: seq<ExtraRef>, rest: string)

  /** A job configuration file. */
  datatype JobConfig = JobConfig(presubmits: map<string, seq<Job>>, postsubmits: map<string, seq<Job>>, periodics: seq<Periodic>)

  /** The content of a forked file: the jobs of one repository. */
  datatype Payload = Payload(presubmits: seq<Job>, postsubmits: seq<Job>, periodics: seq<Periodic>)

  // ---------- Names ----------

  function ReplaceAll(s: string, from: char, to: char): (t: string)
    ensures |t| == |s|
    ensures forall i :: 0 <= i < |s| ==> t[i] == if s[i] == from then to else s[i]
  {
    if s == "" then "" else [if s[0] == from then to else s[0]] + ReplaceAll(s[1..], from, to)
  }

  function TargetFileName(repo: string, branch: string): string {
    ReplaceAll(repo, '/', '-') + "-" + ReplaceAll(branch, '.', '-') + ".yaml"
  }

  /** The last element of a path that does not end in a slash. */
  function Base(path: string): (b: string)
    ensures |b| <= |path| && b == path[|path| - |b|..] && '/' !in b
    ensures |b| < |path| ==> path[|path| - |b| - 1] == '/'
    decreases |path|
  {
    if path == "" then ""
    else if '/' in path[1..] || path[0] == '/' then Base(path[1..])
    else path
  }

  function FileOf(repo: string, branch: string): string {
    Base(TargetFileName(repo, branch))
  }

  predicate IsYaml(file: string) {
    (|file| >= 5 && file[|file| - 5..] == ".yaml") || (|file| >= 4 && file[|file| - 4..] == ".yml")
  }

  /** A yaml file whose name starts like the files of the repository. */
  predicate Owned(file: string, repo: string) {
    IsYaml(file) && ReplaceAll(repo, '/', '-') <= file
  }

  predicate IsTarget(file: string, repo: string, branches: seq<string>) {
    exists i :: 0 <= i < |branches| && file == TargetFileName(repo, branches[i])
  }

  // ---------- Rewriting jobs ----------

  predicate ToFork(annotations: map<string, string>) {
    FORK in annotations && annotations[FORK] == "true"
  }

  function ForkedAnnotations(annotations: map<string, string>): map<string, string> {
    (annotations - {FORK})[FORKED := "true"]
  }

  function ForkedName(name: string, branch: string): string {
    name + "-" + ReplaceAll(branch, '.', '-')
  }

  function ForkedJob(job: Job, branch: string): Job {
    Job(ForkedName(job.name, branch), ForkedAnnotations(job.annotations), [branch], [], job.rest)
  }

  /** The annotated jobs, in order, each pinned to the branch. */
  function ForkedJobs(jobs: seq<Job>, branch: string): seq<Job> {
    if jobs == [] then []
    else ForkedJobs(jobs[..|jobs| - 1], branch)
         + (if ToFork(jobs[|jobs| - 1].annotations) then [ForkedJob(jobs[|jobs| - 1], branch)] else [])
  }

  predicate Related(periodic: Periodic, repo: string) {
    exists i :: 0 <= i < |periodic.extraRefs| && periodic.extraRefs[i].orgRepo == repo
  }

  function PinnedRefs(refs: seq<ExtraRef>, repo: string, branch: string): (r: seq<ExtraRef>)
    ensures |r| == |refs|
    ensures forall i :: 0 <= i < |refs| ==> r[i] == if refs[i].orgRepo == repo then refs[i].(baseRef := branch) else refs[i]
  {
    seq(|refs|, i requires 0 <= i < |refs| => if refs[i].orgRepo == repo then refs[i].(baseRef := branch) else refs[i])
  }

  function ForkedPeriodic(p: Periodic, repo: string, branch: string): Periodic {
    Periodic(ForkedName(p.name, branch), ForkedAnnotations(p.annotations), PinnedRefs(p.extraRefs, repo, branch), p.rest)
  }

  function ForkedPeriodics(ps: seq<Periodic>, repo: string, branch: string): seq<Periodic> {
    if ps == [] then []
    else
      var p := ps[|ps| - 1];
      ForkedPeriodics(ps[..|ps| - 1], repo, branch)
      + (if ToFork(p.annotations) && Related(p, repo) then [ForkedPeriodic(p, repo, branch)] else [])
  }

  function JobsOf(jobs: map<string, seq<Job>>, repo: string): seq<Job> {
    if repo in jobs then jobs[repo] else []
  }

  /** All forked jobs of a repository for a branch, over all configuration files. */
  function PayloadFor(configs: seq<JobConfig>, repo: string, branch: string): Payload {
    if configs == [] then Payload([], [], [])
    else
      var p := PayloadFor(configs[..|configs| - 1], repo, branch);
      var c := configs[|configs| - 1];
      Payload(p.presubmits + ForkedJobs(JobsOf(c.presubmits, repo), branch),
              p.postsubmits + ForkedJobs(JobsOf(c.postsubmits, repo), branch),
              p.periodics + ForkedPeriodics(c.periodics, repo, branch))
  }

  predicate HasForkedJobs(configs: seq<JobConfig>, repo: string) {
    exists i :: 0 <= i < |configs| && HasForkedJobsIn(configs[i], repo)
  }

  predicate HasForkedJobsIn(c: JobConfig, repo: string) {
    || (exists k :: 0 <= k < |JobsOf(c.presubmits, repo)| && ToFork(JobsOf(c.presubmits, repo)[k].annotations))
    || (exists k :: 0 <= k < |JobsOf(c.postsubmits, repo)| && ToFork(JobsOf(c.postsubmits, repo)[k].annotations))
    || (exists k :: 0 <= k < |c.periodics| && ToFork(c.periodics[k].annotations) && Related(c.periodics[k], repo))
  }

  lemma {:induction false} SomeForkedJob(jobs: seq<Job>, branch: string)
    ensures ForkedJobs(jobs, branch) != [] <==> exists k :: 0 <= k < |jobs| && ToFork(jobs[k].annotations)
  {
    hide ForkedJob, ToFork;
    if jobs == [] {
    } else {
      SomeForkedJob(jobs[..|jobs| - 1], branch);
    }
  }

  lemma {:induction false} SomeForkedPeriodic(ps: seq<Periodic>, repo: string, branch: string)
    ensures ForkedPeriodics(ps, repo, branch) != []
       <==> exists k :: 0 <= k < |ps| && ToFork(ps[k].annotations) && Related(ps[k], repo)
  {
    hide ForkedPeriodic, ToFork, Related;
    if ps == [] {
    } else {
      SomeForkedPeriodic(ps[..|ps| - 1], repo, branch);
    }
  }

  lemma HasForkedJobsStep(configs: seq<JobConfig>, repo: string, branch: string)
    requires configs != []
    ensures var c := configs[|configs| - 1];
            HasForkedJobs(configs, repo) <==>
              || HasForkedJobs(configs[..|configs| - 1], repo)
              || ForkedJobs(JobsOf(c.presubmits, repo), branch) != []
              || ForkedJobs(JobsOf(c.postsubmits, repo), branch) != []
              || ForkedPeriodics(c.periodics, repo, branch) != []
  {
    hide ForkedJobs, ForkedPeriodics, ToFork, Related, JobsOf;
    var c := configs[|configs| - 1];
    SomeForkedJob(JobsOf(c.presubmits, repo), branch);
    SomeForkedJob(JobsOf(c.postsubmits, repo), branch);
    SomeForkedPeriodic(c.periodics, repo, branch);
    var front := configs[..|configs| - 1];
    assert forall i :: 0 <= i < |front| ==> front[i] == configs[i];
  }

  /** Whether a file is written for a branch depends only on the repository. */
  lemma {:induction false} PayloadIsEmpty(configs: seq<JobConfig>, repo: string, branch: string)
    ensures PayloadFor(configs, repo, branch) == Payload([], [], []) <==> !HasForkedJobs(configs, repo)
  {
    hide HasForkedJobs, ForkedJobs, ForkedPeriodics, JobsOf;
    if configs != [] {
      PayloadIsEmpty(configs[..|configs| - 1], repo, branch);
      HasForkedJobsStep(configs, repo, branch);
    } else {
      NoConfigs(repo);
    }
  }

  lemma NoConfigs(repo: string)
    ensures !HasForkedJobs([], repo)
  {
  }

  // ---------- One run over the directory ----------

  /** The inputs of a run: configuration files, and the release branches of each repository. */
  datatype Inputs = Inputs(configs: seq<JobConfig>, live: string -> seq<string>)

  type Files = map<string, Payload>

  function ForkBranch(inp: Inputs, files: Files, repo: string, branch: string): Files {
    if FileOf(repo, branch) in files || PayloadFor(inp.configs, repo, branch) == Payload([], [], []) then files
    else files[FileOf(repo, branch) := PayloadFor(inp.configs, repo, branch)]
  }

  function ForkBranches(inp: Inputs, files: Files, repo: string, branches: seq<string>): Files {
    if branches == [] then files
    else ForkBranch(inp, ForkBranches(inp, files, repo, branches[..|branches| - 1]), repo, branches[|branches| - 1])
  }

  predicate Orphan(file: string, repo: string, branches: seq<string>) {
    Owned(file, repo) && !IsTarget(file, repo, branches)
  }

  function RemoveOrphans(files: Files, repo: string, branches: seq<string>): Files {
    map f | f in files && !Orphan(f, repo, branches) :: files[f]
  }

  function RunRepo(inp: Inputs, files: Files, repo: string): Files {
    RemoveOrphans(ForkBranches(inp, files, repo, inp.live(repo)), repo, inp.live(repo))
  }

  /** A run over the repositories in the given order. */
  function RunAll(inp: Inputs, files: Files, order: seq<string>): Files {
    if order == [] then files
    else RunRepo(inp, RunAll(inp, files, order[..|order| - 1]), order[|order| - 1])
  }

  // ---------- Uniform forking ----------

  /** The file holds the forked jobs of some handled repository for one of its live branches. */
  ghost predicate Uniform(inp: Inputs, order: seq<string>, file: string, content: Payload) {
    exists repo, b :: repo in order && b in inp.live(repo) && file == FileOf(repo, b) && content == PayloadFor(inp.configs, repo, b)
  }

  lemma {:induction false} BranchesAreUniform(inp: Inputs, files: Files, repo: string, branches: seq<string>, f: string)
    requires f in ForkBranches(inp, files, repo, branches)
    ensures (f in files && ForkBranches(inp, files, repo, branches)[f] == files[f])
         || exists b :: b in branches && f == FileOf(repo, b) && ForkBranches(inp, files, repo, branches)[f] == PayloadFor(inp.configs, repo, b)
  {
    hide PayloadFor, FileOf;
    if branches == [] {
    } else {
      var front, b := branches[..|branches| - 1], branches[|branches| - 1];
      var mid := ForkBranches(inp, files, repo, front);
      if f in mid && ForkBranches(inp, files, repo, branches)[f] == mid[f] {
        BranchesAreUniform(inp, files, repo, front, f);
      }
    }
  }

  /** Whatever the order, a file of the result is an untouched old file or holds exactly the jobs of one branch. */
  lemma {:induction false} RunIsUniform(inp: Inputs, files: Files, order: seq<string>, f: string)
    requires f in RunAll(inp, files, order)
    ensures (f in files && RunAll(inp, files, order)[f] == files[f]) || Uniform(inp, order, f, RunAll(inp, files, order)[f])
  {
    hide PayloadFor, FileOf, Orphan, ForkBranches;
    if order == [] {
    } else {
      var front, repo := order[..|order| - 1], order[|order| - 1];
      var mid := RunAll(inp, files, front);
      BranchesAreUniform(inp, mid, repo, inp.live(repo), f);
      if f in mid && RunAll(inp, files, order)[f] == mid[f] {
        RunIsUniform(inp, files, front, f);
        if Uniform(inp, front, f, mid[f]) {
          var r, b :| r in front && b in inp.live(r) && f == FileOf(r, b) && mid[f] == PayloadFor(inp.configs, r, b);
          assert r in order;
        }
      }
    }
  }

  /** The name is extended by the branch, with dashes for dots. */
  ghost predicate NamedFor(forked: string, name: string, branch: string) {
    && |forked| == |name| + 1 + |branch| && name + "-" <= forked
    && forall i :: 0 <= i < |branch| ==> forked[|name| + 1 + i] == if branch[i] == '.' then '-' else branch[i]
  }

  /** The fork request has become the mark of a forked job; all other annotations are kept. */
  ghost predicate Marked(forked: map<string, string>, annotations: map<string, string>) {
    && "fork-per-release" !in forked && "created-by-job-forker" in forked && forked["created-by-job-forker"] == "true"
    && forall a :: a != "fork-per-release" && a != "created-by-job-forker" ==>
         (a in forked <==> a in annotations) && (a in forked ==> forked[a] == annotations[a])
  }

  ghost predicate PinnedCopy(f: Job, j: Job, branch: string) {
    && NamedFor(f.name, j.name, branch) && Marked(f.annotations, j.annotations)
    && f.branches == [branch] && f.skipBranches == [] && f.rest == j.rest
  }

  ghost predicate PinnedPeriodic(f: Periodic, p: Periodic, repo: string, branch: string) {
    && NamedFor(f.name, p.name, branch) && Marked(f.annotations, p.annotations) && f.rest == p.rest
    && |f.extraRefs| == |p.extraRefs|
    && forall i :: 0 <= i < |p.extraRefs| ==>
         && f.extraRefs[i].orgRepo == p.extraRefs[i].orgRepo
         && f.extraRefs[i].baseRef == if p.extraRefs[i].orgRepo == repo then branch else p.extraRefs[i].baseRef
  }

  lemma ForkedIsMarked(name: string, annotations: map<string, string>, branch: string)
    ensures NamedFor(ForkedName(name, branch), name, branch)
    ensures Marked(ForkedAnnotations(annotations), annotations)
  {
    hide ReplaceAll;
    assert |FORK| != |FORKED|;
    var forked, dashed := ForkedName(name, branch), ReplaceAll(branch, '.', '-');
    assert forked == name + "-" + dashed && forked[..|name| + 1] == name + "-" && forked[|name| + 1..] == dashed;
    forall i | 0 <= i < |branch|
      ensures forked[|name| + 1 + i] == dashed[i]
    {
      assert forked[|name| + 1..][i] == dashed[i];
    }
  }

  /** The positions of the true flags, from left to right. */
  function TruesAt(flags: seq<bool>): (at: seq<nat>)
    ensures forall k :: 0 <= k < |at| ==> at[k] < |flags|
  {
    if flags == [] then []
    else
      var last := |flags| - 1;
      TruesAt(flags[..last]) + if flags[last] then [last] else []
  }

  lemma {:induction false} TruesAreFound(flags: seq<bool>)
    ensures forall i, j :: 0 <= i < j < |TruesAt(flags)| ==> TruesAt(flags)[i] < TruesAt(flags)[j]
    ensures forall i: nat :: i in TruesAt(flags) <==> i < |flags| && flags[i]
  {
    if flags == [] {
    } else {
      TruesAreFound(flags[..|flags| - 1]);
    }
  }

  /** The annotations that ask for forking. */
  ghost predicate Asks(annotations: map<string, string>) {
    "fork-per-release" in annotations && annotations["fork-per-release"] == "true"
  }

  ghost function Annotated(jobs: seq<Job>): (flags: seq<bool>)
    ensures |flags| == |jobs| && forall i :: 0 <= i < |jobs| ==> flags[i] == Asks(jobs[i].annotations)
  {
    seq(|jobs|, i requires 0 <= i < |jobs| => Asks(jobs[i].annotations))
  }

  ghost predicate Mentions(refs: seq<ExtraRef>, repo: string) {
    exists ref :: ref in refs && ref.orgRepo == repo
  }

  ghost function AnnotatedFor(ps: seq<Periodic>, repo: string): (flags: seq<bool>)
    ensures |flags| == |ps| && forall i :: 0 <= i < |ps| ==> flags[i] == (Asks(ps[i].annotations) && Mentions(ps[i].extraRefs, repo))
  {
    seq(|ps|, i requires 0 <= i < |ps| => Asks(ps[i].annotations) && Mentions(ps[i].extraRefs, repo))
  }

  lemma AskedIsForked(annotations: map<string, string>)
    ensures ToFork(annotations) <==> Asks(annotations)
  {
  }

  lemma MentionedIsRelated(p: Periodic, repo: string)
    ensures Related(p, repo) <==> Mentions(p.extraRefs, repo)
  {
  }

  /** The forked jobs are the annotated ones, each once and in their order, each pinned to the branch. */
  ghost predicate PinnedInOrder(forked: seq<Job>, jobs: seq<Job>, branch: string) {
    var at := TruesAt(Annotated(jobs));
    |forked| == |at| && forall k :: 0 <= k < |at| ==> PinnedCopy(forked[k], jobs[at[k]], branch)
  }

  ghost predicate PeriodicsPinnedInOrder(forked: seq<Periodic>, ps: seq<Periodic>, repo: string, branch: string) {
    var at := TruesAt(AnnotatedFor(ps, repo));
    |forked| == |at| && forall k :: 0 <= k < |at| ==> PinnedPeriodic(forked[k], ps[at[k]], repo, branch)
  }

  lemma {:induction false} ForkedJobsArePinned(jobs: seq<Job>, branch: string)
    ensures PinnedInOrder(ForkedJobs(jobs, branch), jobs, branch)
  {
    hide ForkedJob, ToFork, Asks, PinnedCopy, Annotated;
    if jobs == [] {
    } else {
      var front, last := jobs[..|jobs| - 1], jobs[|jobs| - 1];
      ForkedJobsArePinned(front, branch);
      ForkedJobIsPinned(last, branch);
      AskedIsForked(last.annotations);
      assert Annotated(jobs)[..|jobs| - 1] == Annotated(front);
    }
  }

  lemma ForkedJobIsPinned(job: Job, branch: string)
    ensures PinnedCopy(ForkedJob(job, branch), job, branch)
  {
    hide ForkedName, ForkedAnnotations, NamedFor, Marked;
    ForkedIsMarked(job.name, job.annotations, branch);
  }

  lemma {:induction false} ForkedPeriodicsArePinned(ps: seq<Periodic>, repo: string, branch: string)
    ensures PeriodicsPinnedInOrder(ForkedPeriodics(ps, repo, branch), ps, repo, branch)
  {
    hide ForkedPeriodic, ToFork, Related, Asks, Mentions, PinnedPeriodic, AnnotatedFor;
    if ps == [] {
    } else {
      var front, last := ps[..|ps| - 1], ps[|ps| - 1];
      ForkedPeriodicsArePinned(front, repo, branch);
      ForkedPeriodicIsPinned(last, repo, branch);
      AskedIsForked(last.annotations);
      MentionedIsRelated(last, repo);
      assert AnnotatedFor(ps, repo)[..|ps| - 1] == AnnotatedFor(front, repo);
    }
  }

  lemma ForkedPeriodicIsPinned(p: Periodic, repo: string, branch: string)
    ensures PinnedPeriodic(ForkedPeriodic(p, repo, branch), p, repo, branch)
  {
    hide ForkedName, ForkedAnnotations, NamedFor, Marked;
    ForkedIsMarked(p.name, p.annotations, branch);
  }

  // ---------- The jobs of all files ----------

  function AllPresubmits(configs: seq<JobConfig>, repo: string): seq<Job> {
    if configs == [] then []
    else
      var c := configs[|configs| - 1];
      AllPresubmits(configs[..|configs| - 1], repo) + if repo in c.presubmits then c.presubmits[repo] else []
  }

  function AllPostsubmits(configs: seq<JobConfig>, repo: string): seq<Job> {
    if configs == [] then []
    else
      var c := configs[|configs| - 1];
      AllPostsubmits(configs[..|configs| - 1], repo) + if repo in c.postsubmits then c.postsubmits[repo] else []
  }

  function AllPeriodics(configs: seq<JobConfig>): seq<Periodic> {
    if configs == [] then []
    else AllPeriodics(configs[..|configs| - 1]) + configs[|configs| - 1].periodics
  }

  lemma {:induction false} ForkedJobsOfSum(a: seq<Job>, b: seq<Job>, branch: string)
    ensures ForkedJobs(a + b, branch) == ForkedJobs(a, branch) + ForkedJobs(b, branch)
  {
    hide ForkedJob, ToFork;
    if b == [] {
      assert a + b == a;
    } else {
      assert (a + b)[..|a + b| - 1] == a + b[..|b| - 1];
      ForkedJobsOfSum(a, b[..|b| - 1], branch);
    }
  }

  lemma {:induction false} ForkedPeriodicsOfSum(a: seq<Periodic>, b: seq<Periodic>, repo: string, branch: string)
    ensures ForkedPeriodics(a + b, repo, branch) == ForkedPeriodics(a, repo, branch) + ForkedPeriodics(b, repo, branch)
  {
    hide ForkedPeriodic, ToFork, Related;
    if b == [] {
      assert a + b == a;
    } else {
      assert (a + b)[..|a + b| - 1] == a + b[..|b| - 1];
      ForkedPeriodicsOfSum(a, b[..|b| - 1], repo, branch);
    }
  }

  lemma {:induction false} PayloadOfAll(configs: seq<JobConfig>, repo: string, branch: string)
    ensures PayloadFor(configs, repo, branch)
         == Payload(ForkedJobs(AllPresubmits(configs, repo), branch), ForkedJobs(AllPostsubmits(configs, repo), branch),
                    ForkedPeriodics(AllPeriodics(configs), repo, branch))
  {
    hide ForkedJobs, ForkedPeriodics;
    if configs == [] {
      NothingForked(repo, branch);
    } else {
      var front, c := configs[..|configs| - 1], configs[|configs| - 1];
      PayloadOfAll(front, repo, branch);
      ForkedJobsOfSum(AllPresubmits(front, repo), JobsOf(c.presubmits, repo), branch);
      ForkedJobsOfSum(AllPostsubmits(front, repo), JobsOf(c.postsubmits, repo), branch);
      ForkedPeriodicsOfSum(AllPeriodics(front), c.periodics, repo, branch);
    }
  }

  lemma NothingForked(repo: string, branch: string)
    ensures ForkedJobs([], branch) == [] && ForkedPeriodics([], repo, branch) == []
  {
  }

  /** The content of a file: pinned copies of exactly the annotated jobs of all files, each once and in order. */
  lemma PayloadIsPinned(configs: seq<JobConfig>, repo: string, branch: string)
    ensures var p := PayloadFor(configs, repo, branch);
            && PinnedInOrder(p.presubmits, AllPresubmits(configs, repo), branch)
            && PinnedInOrder(p.postsubmits, AllPostsubmits(configs, repo), branch)
            && PeriodicsPinnedInOrder(p.periodics, AllPeriodics(configs), repo, branch)
  {
    hide ForkedJobs, ForkedPeriodics, PinnedInOrder, PeriodicsPinnedInOrder, PayloadFor;
    PayloadOfAll(configs, repo, branch);
    ForkedJobsArePinned(AllPresubmits(configs, repo), branch);
    ForkedJobsArePinned(AllPostsubmits(configs, repo), branch);
    ForkedPeriodicsArePinned(AllPeriodics(configs), repo, branch);
  }

  lemma BranchPart(r: string, x: string, suffix: string)
    ensures |r + "-" + x + suffix| == |r| + 1 + |x| + |suffix|
    ensures (r + "-" + x + suffix)[|r| + 1..|r| + 1 + |x|] == x
  {
  }

  /** Two branches of a repository share a file name iff they differ in dots and dashes only. */
  lemma SharedTarget(repo: string, b: string, c: string)
    ensures TargetFileName(repo, b) == TargetFileName(repo, c)
       <==> |b| == |c| && forall i :: 0 <= i < |b| ==> b[i] == c[i] || (b[i] in ".-" && c[i] in ".-")
  {
    hide ReplaceAll;
    var r, x, y := ReplaceAll(repo, '/', '-'), ReplaceAll(b, '.', '-'), ReplaceAll(c, '.', '-');
    BranchPart(r, x, ".yaml");
    BranchPart(r, y, ".yaml");
    if |b| == |c| {
      assert x == y <==> forall i :: 0 <= i < |b| ==> x[i] == y[i];
    }
  }

  // ---------- The files of repositories ----------

  /** The file name of a repository's branch, character by character. */
  ghost predicate NamesBranch(file: string, repo: string, branch: string) {
    && |file| == |repo| + 1 + |branch| + 5
    && (forall i :: 0 <= i < |repo| ==> file[i] == if repo[i] == '/' then '-' else repo[i])
    && file[|repo|] == '-'
    && (forall i :: 0 <= i < |branch| ==> file[|repo| + 1 + i] == if branch[i] == '.' then '-' else branch[i])
    && file[|file| - 5..] == ".yaml"
  }

  lemma TargetNamesBranch(repo: string, branch: string)
    ensures NamesBranch(TargetFileName(repo, branch), repo, branch)
  {
    hide ReplaceAll;
    var r, x := ReplaceAll(repo, '/', '-'), ReplaceAll(branch, '.', '-');
    var file := TargetFileName(repo, branch);
    BranchPart(r, x, ".yaml");
    assert file[..|r|] == r && file[|file| - 5..] == ".yaml";
    forall i | 0 <= i < |branch|
      ensures file[|repo| + 1 + i] == x[i]
    {
      assert file[|r| + 1..|r| + 1 + |x|][i] == x[i];
    }
    forall i | 0 <= i < |repo|
      ensures file[i] == r[i]
    {
      assert file[..|r|][i] == r[i];
    }
  }

  lemma BaseOf(s: string)
    requires '/' !in s
    ensures Base(s) == s
  {
  }

  lemma {:induction false} BaseOfChild(parent: string, s: string)
    requires '/' !in s
    ensures Base(parent + "/" + s) == s
  {
    var path := parent + "/" + s;
    assert path[|parent|] == '/';
    if parent == "" {
      assert path[1..] == s;
      BaseOf(s);
    } else {
      assert path[1..] == parent[1..] + "/" + s;
      assert path[1..][|parent| - 1] == '/';
      BaseOfChild(parent[1..], s);
    }
  }

  /** A branch without a slash has a file of its repository's own. */
  lemma FileNamesBranch(repo: string, branch: string)
    requires '/' !in branch
    ensures FileOf(repo, branch) == TargetFileName(repo, branch)
    ensures NamesBranch(FileOf(repo, branch), repo, branch)
    ensures Owned(FileOf(repo, branch), repo)
  {
    hide ReplaceAll, Base;
    TargetNamesBranch(repo, branch);
    var f := TargetFileName(repo, branch);
    NoSlashIn(f, repo, branch);
    BaseOf(f);
    assert ReplaceAll(repo, '/', '-') <= f;
  }

  lemma NoSlashIn(file: string, repo: string, branch: string)
    requires NamesBranch(file, repo, branch) && '/' !in branch
    ensures '/' !in file
  {
    forall i | 0 <= i < |file|
      ensures file[i] != '/'
    {
      if i >= |file| - 5 {
        assert file[i] == file[|file| - 5..][i - |file| + 5];
      } else if i > |repo| {
        var k := i - |repo| - 1;
        assert file[|repo| + 1 + k] == if branch[k] == '.' then '-' else branch[k];
      }
    }
  }

  lemma ReplaceInSum(a: string, b: string, from: char, to: char)
    ensures ReplaceAll(a + b, from, to) == ReplaceAll(a, from, to) + ReplaceAll(b, from, to)
  {
    hide ReplaceAll;
  }

  lemma NothingToReplace(s: string, from: char, to: char)
    requires from !in s
    ensures ReplaceAll(s, from, to) == s
  {
    hide ReplaceAll;
  }

  lemma SumHasNone(c: char, a: string, b: string)
    requires c !in a && c !in b
    ensures c !in a + b
  {
  }

  lemma DashedPath(parent: string, branch: string)
    ensures ReplaceAll(parent + "/" + branch, '.', '-') == ReplaceAll(parent, '.', '-') + "/" + ReplaceAll(branch, '.', '-')
  {
    hide ReplaceAll;
    ReplaceInSum(parent + "/", branch, '.', '-');
    ReplaceInSum(parent, "/", '.', '-');
    NothingToReplace("/", '.', '-');
  }

  lemma Regroup(r: string, p: string, x: string, suffix: string)
    ensures r + "-" + (p + "/" + x) + suffix == (r + "-" + p) + "/" + (x + suffix)
  {
  }

  /** A branch with a slash has the file of its last part, in which nothing tells the repository. */
  lemma SlashedBranchLosesRepo(repo: string, parent: string, branch: string)
    requires '/' !in branch
    ensures FileOf(repo, parent + "/" + branch) == ReplaceAll(branch, '.', '-') + ".yaml"
  {
    DashedPath(parent, branch);
    hide ReplaceAll, Base;
    var r, p, x := ReplaceAll(repo, '/', '-'), ReplaceAll(parent, '.', '-'), ReplaceAll(branch, '.', '-');
    assert '/' !in x by {
      DashesOnly(branch);
    }
    SumHasNone('/', x, ".yaml");
    Regroup(r, p, x, ".yaml");
    BaseOfChild(r + "-" + p, x + ".yaml");
  }

  lemma DashesOnly(branch: string)
    requires '/' !in branch
    ensures '/' !in ReplaceAll(branch, '.', '-')
  {
    hide ReplaceAll;
  }

  /** A dashed name is the other, or the other's beginning up to a dash, with no dot in what remains. */
  ghost predicate Extends(longer: string, shorter: string) {
    longer == shorter || (shorter + "-" <= longer && '.' !in longer[|shorter|..])
  }

  lemma SharedFileExtends(f: string, repo: string, other: string, b: string, c: string)
    requires NamesBranch(f, repo, b) && NamesBranch(f, other, c) && |repo| <= |other|
    ensures Extends(ReplaceAll(other, '/', '-'), ReplaceAll(repo, '/', '-'))
  {
    hide ReplaceAll;
    var r, q := ReplaceAll(repo, '/', '-'), ReplaceAll(other, '/', '-');
    assert forall i :: 0 <= i < |r| ==> f[i] == r[i];
    assert forall i :: 0 <= i < |q| ==> f[i] == q[i];
    if |r| < |q| {
      assert q[|r|] == '-';
      assert r + "-" <= q;
      forall i | |r| < i < |q|
        ensures q[i] != '.'
      {
        var k := i - |r| - 1;
        assert f[|repo| + 1 + k] == if b[k] == '.' then '-' else b[k];
      }
    } else {
      assert r == q;
    }
  }

  lemma ExtendedShares(repo: string, other: string) returns (b: string)
    requires Extends(ReplaceAll(other, '/', '-'), ReplaceAll(repo, '/', '-'))
    ensures '/' !in b && FileOf(repo, b) == FileOf(other, "v1")
  {
    hide ReplaceAll, Base, FileOf;
    var r, q := ReplaceAll(repo, '/', '-'), ReplaceAll(other, '/', '-');
    NothingToReplace("v1", '.', '-');
    if r == q {
      b := "v1";
    } else {
      var more := q[|r| + 1..];
      assert '.' !in more by {
        assert more == q[|r|..][1..];
      }
      b := more + "-v1";
      SumHasNone('.', more, "-v1");
      NothingToReplace(b, '.', '-');
      SumHasNone('/', more, "-v1");
      assert q == r + "-" + more;
      assert r + "-" + (more + "-v1") + ".yaml" == r + "-" + more + "-" + "v1" + ".yaml";
    }
    FileNamesBranch(repo, b);
    FileNamesBranch(other, "v1");
  }

  /**
   Two repositories can share a file, by branches without a slash, iff one's dashed name is the other's or extends
   it by a dash and characters other than dots.
   */
  lemma FilesCollideIff(repo: string, other: string)
    ensures var r, q := ReplaceAll(repo, '/', '-'), ReplaceAll(other, '/', '-');
            (exists b, c :: '/' !in b && '/' !in c && FileOf(repo, b) == FileOf(other, c)) <==> Extends(q, r) || Extends(r, q)
  {
    hide ReplaceAll, Base, FileOf, TargetFileName, NamesBranch, Owned, Extends;
    var r, q := ReplaceAll(repo, '/', '-'), ReplaceAll(other, '/', '-');
    forall b, c | '/' !in b && '/' !in c && FileOf(repo, b) == FileOf(other, c)
      ensures Extends(q, r) || Extends(r, q)
    {
      FileNamesBranch(repo, b);
      FileNamesBranch(other, c);
      if |repo| <= |other| {
        SharedFileExtends(FileOf(repo, b), repo, other, b, c);
      } else {
        SharedFileExtends(FileOf(repo, b), other, repo, c, b);
      }
    }
    assert '/' !in "v1";
    if Extends(q, r) {
      var b := ExtendedShares(repo, other);
      assert FileOf(repo, b) == FileOf(other, "v1");
    }
    if Extends(r, q) {
      var b := ExtendedShares(other, repo);
      assert FileOf(repo, "v1") == FileOf(other, b);
    }
  }

  // ---------- Files that go and files that stay ----------

  /** No live branch of a handled repository is kept in the file. */
  ghost predicate Stale(inp: Inputs, order: seq<string>, file: string) {
    forall repo, b :: repo in order && b in inp.live(repo) ==> FileOf(repo, b) != file
  }

  lemma StaleIsOrphan(inp: Inputs, order: seq<string>, repo: string, branch: string)
    requires repo in order && '/' !in branch && Stale(inp, order, FileOf(repo, branch))
    ensures Orphan(FileOf(repo, branch), repo, inp.live(repo))
  {
    hide ReplaceAll, Base, FileOf, TargetFileName, IsYaml;
    FileNamesBranch(repo, branch);
    var f := FileOf(repo, branch);
    NoSlashIn(f, repo, branch);
    forall i | 0 <= i < |inp.live(repo)|
      ensures f != TargetFileName(repo, inp.live(repo)[i])
    {
      var b := inp.live(repo)[i];
      if f == TargetFileName(repo, b) {
        BaseOf(f);
        assert FileOf(repo, b) == Base(TargetFileName(repo, b)) by {
          FileIsBase(repo, b);
        }
      }
    }
  }

  lemma FileIsBase(repo: string, b: string)
    ensures FileOf(repo, b) == Base(TargetFileName(repo, b))
  {
  }

  /** A run that handles the repository removes the file of a branch that is gone, and nothing writes it again. */
  lemma {:induction false} StaleFileGoes(inp: Inputs, files: Files, order: seq<string>, repo: string, branch: string)
    requires repo in order && '/' !in branch && Stale(inp, order, FileOf(repo, branch))
    ensures FileOf(repo, branch) !in RunAll(inp, files, order)
  {
    hide FileOf, Orphan, ForkBranches;
    var f := FileOf(repo, branch);
    var front, last := order[..|order| - 1], order[|order| - 1];
    assert order == front + [last];
    var mid := RunAll(inp, files, front);
    ForkKeeps(inp, mid, last, inp.live(last));
    if last == repo {
      StaleIsOrphan(inp, order, repo, branch);
    } else {
      StaleFileGoes(inp, files, front, repo, branch);
    }
  }

  /** A file that is no handled repository's orphan stays as it is, whatever is forked. */
  lemma {:induction false} OtherFilesStay(inp: Inputs, files: Files, order: seq<string>, f: string)
    requires f in files && forall repo :: repo in order ==> !Orphan(f, repo, inp.live(repo))
    ensures f in RunAll(inp, files, order) && RunAll(inp, files, order)[f] == files[f]
  {
    hide FileOf, Orphan, ForkBranches;
    if order == [] {
    } else {
      var front, last := order[..|order| - 1], order[|order| - 1];
      assert order == front + [last];
      OtherFilesStay(inp, files, front, f);
      ForkKeeps(inp, RunAll(inp, files, front), last, inp.live(last));
    }
  }

  // ---------- Convergence ----------

  /** Every live branch of a repository with annotated jobs has its file. */
  ghost predicate Complete(inp: Inputs, files: Files, repo: string) {
    HasForkedJobs(inp.configs, repo) ==> forall b :: b in inp.live(repo) ==> FileOf(repo, b) in files
  }

  /** Every yaml file that looks like one of the repository's belongs to a live branch. */
  ghost predicate Clean(inp: Inputs, files: Files, repo: string) {
    forall f :: f in files ==> !Orphan(f, repo, inp.live(repo))
  }

  /** No file that the run has to keep looks like an orphan of some handled repository. */
  ghost predicate NoClash(inp: Inputs, order: seq<string>) {
    forall repo, other, b ::
      repo in order && other in order && HasForkedJobs(inp.configs, other) && b in inp.live(other)
      ==> !Orphan(FileOf(other, b), repo, inp.live(repo))
  }

  lemma {:induction false} ForkKeeps(inp: Inputs, files: Files, repo: string, branches: seq<string>)
    ensures forall f :: f in files ==> f in ForkBranches(inp, files, repo, branches) && ForkBranches(inp, files, repo, branches)[f] == files[f]
    ensures forall f :: f in ForkBranches(inp, files, repo, branches) ==>
              f in files || (HasForkedJobs(inp.configs, repo) && exists b :: b in branches && f == FileOf(repo, b))
    ensures HasForkedJobs(inp.configs, repo) ==>
              forall b :: b in branches ==> FileOf(repo, b) in ForkBranches(inp, files, repo, branches)
  {
    hide PayloadFor, FileOf, HasForkedJobs;
    if branches == [] {
    } else {
      var front, last := branches[..|branches| - 1], branches[|branches| - 1];
      ForkKeeps(inp, files, repo, front);
      PayloadIsEmpty(inp.configs, repo, last);
      assert branches == front + [last];
    }
  }

  lemma RepoKeepsComplete(inp: Inputs, order: seq<string>, files: Files, repo: string, other: string)
    requires NoClash(inp, order) && repo in order && other in order
    requires other == repo || Complete(inp, files, other)
    ensures Complete(inp, RunRepo(inp, files, repo), other)
  {
    hide HasForkedJobs, FileOf, Orphan, ForkBranches;
    ForkKeeps(inp, files, repo, inp.live(repo));
  }

  lemma RepoKeepsClean(inp: Inputs, order: seq<string>, files: Files, repo: string, other: string)
    requires NoClash(inp, order) && repo in order && other in order
    requires other == repo || Clean(inp, files, other)
    ensures Clean(inp, RunRepo(inp, files, repo), other)
  {
    hide HasForkedJobs, FileOf, Orphan, ForkBranches;
    ForkKeeps(inp, files, repo, inp.live(repo));
  }

  lemma {:induction false} RunSettles(inp: Inputs, order: seq<string>, files: Files, done: seq<string>)
    requires NoClash(inp, order) && done <= order
    ensures forall repo :: repo in done ==> Complete(inp, RunAll(inp, files, done), repo) && Clean(inp, RunAll(inp, files, done), repo)
  {
    hide NoClash, Complete, Clean, RunRepo;
    if done == [] {
    } else {
      var front, last := done[..|done| - 1], done[|done| - 1];
      RunSettles(inp, order, files, front);
      forall repo | repo in done
        ensures Complete(inp, RunAll(inp, files, done), repo) && Clean(inp, RunAll(inp, files, done), repo)
      {
        assert repo == last || repo in front;
        RepoKeepsComplete(inp, order, RunAll(inp, files, front), last, repo);
        RepoKeepsClean(inp, order, RunAll(inp, files, front), last, repo);
      }
    }
  }

  ghost predicate Settled(inp: Inputs, files: Files, order: seq<string>) {
    forall repo :: repo in order ==> Complete(inp, files, repo) && Clean(inp, files, repo)
  }

  lemma {:induction false} SettledBranches(inp: Inputs, files: Files, repo: string, branches: seq<string>)
    requires Complete(inp, files, repo) && forall b :: b in branches ==> b in inp.live(repo)
    ensures ForkBranches(inp, files, repo, branches) == files
  {
    hide PayloadFor, FileOf, HasForkedJobs;
    if branches == [] {
    } else {
      var front, last := branches[..|branches| - 1], branches[|branches| - 1];
      SettledBranches(inp, files, repo, front);
      PayloadIsEmpty(inp.configs, repo, last);
      assert last in branches;
    }
  }

  lemma SettledRepo(inp: Inputs, files: Files, repo: string)
    requires Complete(inp, files, repo) && Clean(inp, files, repo)
    ensures RunRepo(inp, files, repo) == files
  {
    hide Orphan, Complete;
    SettledBranches(inp, files, repo, inp.live(repo));
  }

  /** A settled directory is left alone by every further run, in any order. */
  lemma {:induction false} SettledStays(inp: Inputs, files: Files, order: seq<string>)
    requires Settled(inp, files, order)
    ensures RunAll(inp, files, order) == files
  {
    hide Complete, Clean, RunRepo;
    if order == [] {
    } else {
      var front, last := order[..|order| - 1], order[|order| - 1];
      assert order == front + [last];
      SettledStays(inp, files, front);
      SettledRepo(inp, files, last);
    }
  }

  ghost predicate SameElements(a: seq<string>, b: seq<string>) {
    && (forall x :: x in a <==> x in b)
    && (forall i, j :: 0 <= i < j < |a| ==> a[i] != a[j])
  }

  function Without(s: seq<string>, x: string): seq<string> {
    if s == [] then [] else (if s[0] == x then [] else [s[0]]) + Without(s[1..], x)
  }

  lemma {:induction false} WithoutElements(s: seq<string>, x: string)
    requires forall i, j :: 0 <= i < j < |s| ==> s[i] != s[j]
    ensures forall y :: y in Without(s, x) <==> y in s && y != x
    ensures forall i, j :: 0 <= i < j < |Without(s, x)| ==> Without(s, x)[i] != Without(s, x)[j]
  {
    if s == [] {
    } else {
      assert s == [s[0]] + s[1..];
      WithoutElements(s[1..], x);
      var rest := Without(s[1..], x);
      forall i, j | 0 <= i < j < |Without(s, x)|
        ensures Without(s, x)[i] != Without(s, x)[j]
      {
        if s[0] != x {
          assert Without(s, x) == [s[0]] + rest;
          assert rest[j - 1] in rest;
        }
      }
    }
  }

  /** A clash makes the run that visits the clashing repository last lose a file it had to keep. */
  lemma ClashLosesFile(inp: Inputs, handled: seq<string>, files: Files, repo: string, other: string, b: string)
      returns (order: seq<string>)
    requires SameElements(handled, handled) && repo in handled && other in handled
    requires HasForkedJobs(inp.configs, other) && b in inp.live(other) && Orphan(FileOf(other, b), repo, inp.live(repo))
    ensures SameElements(order, handled)
    ensures !Complete(inp, RunAll(inp, files, order), other)
  {
    hide FileOf, Orphan, HasForkedJobs, ForkBranches;
    WithoutElements(handled, repo);
    order := Without(handled, repo) + [repo];
    assert order[..|order| - 1] == Without(handled, repo);
    assert FileOf(other, b) !in RunAll(inp, files, order);
  }

  /**
   Convergence: for all orders in which the repositories can be visited, one run leaves a directory in
   which every live branch has its file and nothing is orphaned, iff there is no clash; further runs,
   in any order, then change nothing.
   */
  lemma ConvergesIffNoClash(inp: Inputs, handled: seq<string>, files: Files)
    requires SameElements(handled, handled)
    ensures (forall order :: SameElements(order, handled) ==> Settled(inp, RunAll(inp, files, order), handled))
       <==> NoClash(inp, handled)
    ensures NoClash(inp, handled) ==>
              forall order, again :: SameElements(order, handled) && SameElements(again, handled) ==>
                RunAll(inp, RunAll(inp, files, order), again) == RunAll(inp, files, order)
  {
    hide Complete, Clean, RunAll, Orphan, HasForkedJobs, FileOf;
    if NoClash(inp, handled) {
      forall order | SameElements(order, handled)
        ensures Settled(inp, RunAll(inp, files, order), handled)
      {
        assert NoClash(inp, order);
        RunSettles(inp, order, files, order);
      }
      forall order, again | SameElements(order, handled) && SameElements(again, handled)
        ensures RunAll(inp, RunAll(inp, files, order), again) == RunAll(inp, files, order)
      {
        assert Settled(inp, RunAll(inp, files, order), handled);
        SettledStays(inp, RunAll(inp, files, order), again);
      }
    } else {
      var repo, other, b :| repo in handled && other in handled && HasForkedJobs(inp.configs, other) && b in inp.live(other)
                         && Orphan(FileOf(other, b), repo, inp.live(repo));
      var order := ClashLosesFile(inp, handled, files, repo, other, b);
      assert !Settled(inp, RunAll(inp, files, order), handled);
    }
  }
}
