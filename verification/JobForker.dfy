/**
 The job-forker as it works on memory and on the output directory: generators that rewrite the loaded
 jobs in place, and the loops that fork and remove files. Each method is tied to the value functions
 of JobForking.
 */
module JobForker {
  import opened JobForking

  /** A job's annotation map; copies of the job share it. */
  class Annotations {
    var m: map<string, string>

    constructor (m: map<string, string>)
      ensures this.m == m
    {
      this.m := m;
    }
  }

  datatype LoadedJob = LoadedJob(name: string, annotations: Annotations, branches: seq<string>, skipBranches: seq<string>, rest: string)

  datatype LoadedPeriodic = LoadedPeriodic(name: string, annotations: Annotations, extraRefs: array<ExtraRef>, rest: string)

  /** A configuration file in memory, restricted to one repository; periodics belong to no repository. */
  datatype Loaded = Loaded(presubmits: seq<LoadedJob>, postsubmits: seq<LoadedJob>, periodics: seq<LoadedPeriodic>)

  // ---------- Values of loaded jobs ----------

  function JobValue(j: LoadedJob): Job
    reads j.annotations
  {
    Job(j.name, j.annotations.m, j.branches, j.skipBranches, j.rest)
  }

  function PeriodicValue(p: LoadedPeriodic): Periodic
    reads p.annotations, p.extraRefs
  {
    Periodic(p.name, p.annotations.m, p.extraRefs[..], p.rest)
  }

  function JobCells(js: seq<LoadedJob>): set<object> {
    set j | j in js :: j.annotations
  }

  function PeriodicCells(ps: seq<LoadedPeriodic>): set<object> {
    (set p | p in ps :: p.annotations as object) + (set p | p in ps :: p.extraRefs as object)
  }

  /** The loaded jobs stand for the given ones. */
  ghost predicate JobsAre(js: seq<LoadedJob>, values: seq<Job>)
    reads JobCells(js)
  {
    |js| == |values| && forall i :: 0 <= i < |js| ==> JobValue(js[i]) == values[i]
  }

  ghost predicate PeriodicsAre(ps: seq<LoadedPeriodic>, values: seq<Periodic>)
    reads PeriodicCells(ps)
  {
    |ps| == |values| && forall i :: 0 <= i < |ps| ==> PeriodicValue(ps[i]) == values[i]
  }

  /** No two jobs share a map: what a freshly parsed file looks like. */
  ghost predicate Unshared(js: seq<LoadedJob>) {
    forall i, j :: 0 <= i < j < |js| ==> js[i].annotations != js[j].annotations
  }

  ghost predicate UnsharedPeriodics(ps: seq<LoadedPeriodic>) {
    forall i, j :: 0 <= i < j < |ps| ==> ps[i].annotations != ps[j].annotations && ps[i].extraRefs != ps[j].extraRefs
  }

  lemma AppendJob(js: seq<LoadedJob>, j: LoadedJob, values: seq<Job>, v: Job)
    requires JobsAre(js, values) && JobValue(j) == v
    ensures JobsAre(js + [j], values + [v])
    ensures JobCells(js + [j]) == JobCells(js) + {j.annotations}
  {
  }

  lemma AppendPeriodic(ps: seq<LoadedPeriodic>, p: LoadedPeriodic, values: seq<Periodic>, v: Periodic)
    requires PeriodicsAre(ps, values) && PeriodicValue(p) == v
    ensures PeriodicsAre(ps + [p], values + [v])
    ensures PeriodicCells(ps + [p]) == PeriodicCells(ps) + {p.annotations, p.extraRefs}
  {
  }

  lemma AppendUnshared(ps: seq<LoadedPeriodic>, p: LoadedPeriodic)
    requires UnsharedPeriodics(ps) && p.annotations !in PeriodicCells(ps) && p.extraRefs !in PeriodicCells(ps)
    ensures UnsharedPeriodics(ps + [p])
  {
    forall k | 0 <= k < |ps|
      ensures ps[k].annotations in PeriodicCells(ps) && ps[k].extraRefs in PeriodicCells(ps)
    {
    }
  }

  lemma JobAhead(js: seq<LoadedJob>, i: nat)
    requires Unshared(js) && i < |js|
    ensures js[i].annotations !in JobCells(js[..i]) && js[i].annotations in JobCells(js)
    ensures JobCells(js[..i]) <= JobCells(js[..i + 1]) && js[i].annotations in JobCells(js[..i + 1])
  {
    assert js[..i + 1] == js[..i] + [js[i]];
  }

  lemma PeriodicAhead(ps: seq<LoadedPeriodic>, i: nat)
    requires UnsharedPeriodics(ps) && i < |ps|
    ensures ps[i].annotations !in PeriodicCells(ps[..i]) && ps[i].extraRefs !in PeriodicCells(ps[..i])
    ensures {ps[i].annotations as object, ps[i].extraRefs} <= PeriodicCells(ps)
    ensures PeriodicCells(ps[..i]) <= PeriodicCells(ps[..i + 1])
    ensures {ps[i].annotations as object, ps[i].extraRefs} <= PeriodicCells(ps[..i + 1])
  {
    assert ps[..i + 1] == ps[..i] + [ps[i]];
  }

  lemma FirstPeriodic(ps: seq<LoadedPeriodic>, was: seq<Periodic>, repo: string, branch: string)
    requires PeriodicsAre(ps, was)
    ensures |ps| == |was| && forall k :: 0 <= k < |ps| ==> PeriodicValue(ps[k]) == was[k]
    ensures PeriodicCells([]) == {} && PeriodicsAre([], ForkedPeriodics(was[..0], repo, branch))
  {
  }

  lemma NextForkedJobs(jobs: seq<Job>, i: nat, branch: string)
    requires i < |jobs|
    ensures ForkedJobs(jobs[..i + 1], branch)
         == ForkedJobs(jobs[..i], branch) + if ToFork(jobs[i].annotations) then [ForkedJob(jobs[i], branch)] else []
  {
    assert jobs[..i + 1][..i] == jobs[..i];
  }

  lemma NextForkedPeriodics(ps: seq<Periodic>, i: nat, repo: string, branch: string)
    requires i < |ps|
    ensures ForkedPeriodics(ps[..i + 1], repo, branch)
         == ForkedPeriodics(ps[..i], repo, branch)
            + if ToFork(ps[i].annotations) && Related(ps[i], repo) then [ForkedPeriodic(ps[i], repo, branch)] else []
  {
    assert ps[..i + 1][..i] == ps[..i];
  }

  /** What a generator leaves behind in an input job: a forked copy's annotations, the fork request gone. */
  function Spent(annotations: map<string, string>): map<string, string> {
    if ToFork(annotations) then ForkedAnnotations(annotations) else annotations
  }

  lemma SpentIsNotForked(annotations: map<string, string>)
    ensures !ToFork(Spent(annotations))
  {
    assert FORK != FORKED by {
      assert |FORK| != |FORKED|;
    }
  }

  /** Jobs whose requests are spent yield nothing, for any branch: loading once per branch is essential. */
  lemma {:induction false} SpentJobsYieldNothing(jobs: seq<Job>, branch: string)
    requires forall i :: 0 <= i < |jobs| ==> exists a :: jobs[i].annotations == Spent(a)
    ensures ForkedJobs(jobs, branch) == []
  {
    hide ToFork, Spent;
    if jobs == [] {
    } else {
      var last := jobs[|jobs| - 1];
      var a :| last.annotations == Spent(a);
      SpentIsNotForked(a);
      SpentJobsYieldNothing(jobs[..|jobs| - 1], branch);
    }
  }

  // ---------- Generators ----------

  /** Turns the fork request into the mark of a forked job. */
  method SpendRequest(a: Annotations)
    modifies a
    ensures a.m == ForkedAnnotations(old(a.m))
  {
    a.m := a.m - {FORK};
    a.m := a.m[FORKED := "true"];
  }

  /** The generator for presubmits and for postsubmits; the two do the same to their own list. */
  method GenerateJobs(jobs: seq<LoadedJob>, branch: string, ghost was: seq<Job>) returns (forked: seq<LoadedJob>)
    requires Unshared(jobs) && JobsAre(jobs, was)
    modifies JobCells(jobs)
    ensures JobsAre(forked, ForkedJobs(was, branch))
    ensures JobCells(forked) <= JobCells(jobs)
    ensures forall i :: 0 <= i < |jobs| ==> jobs[i].annotations.m == Spent(was[i].annotations)
  {
    hide ReplaceAll;
    forked := [];
    assert forall k :: 0 <= k < |jobs| ==> jobs[k].annotations in JobCells(jobs);
    for i := 0 to |jobs|
      invariant JobCells(forked) <= JobCells(jobs[..i])
      invariant JobsAre(forked, ForkedJobs(was[..i], branch))
      invariant forall k :: 0 <= k < i ==> jobs[k].annotations.m == Spent(was[k].annotations)
      invariant forall k :: i <= k < |jobs| ==> JobValue(jobs[k]) == was[k]
    {
      hide ForkedJobs, JobsAre, JobCells, Unshared;
      NextForkedJobs(was, i, branch);
      JobAhead(jobs, i);
      var job := jobs[i];
      assert JobValue(job) == was[i];
      if FORK !in job.annotations.m || job.annotations.m[FORK] != "true" {
        continue;
      }
      SpendRequest(job.annotations);
      job := job.(name := job.name + "-" + ReplaceAll(branch, '.', '-'), branches := [branch], skipBranches := []);
      AppendJob(forked, job, ForkedJobs(was[..i], branch), ForkedJob(was[i], branch));
      forked := forked + [job];
    }
    assert was[..|jobs|] == was;
  }

  /** Points the references to the repository at the branch, in the array that all copies share. */
  method PinRefs(refs: array<ExtraRef>, repo: string, branch: string) returns (related: bool)
    modifies refs
    ensures refs[..] == PinnedRefs(old(refs[..]), repo, branch)
    ensures related <==> exists i :: 0 <= i < refs.Length && old(refs[..])[i].orgRepo == repo
  {
    related := false;
    ghost var was := refs[..];
    for i := 0 to refs.Length
      invariant related <==> exists k :: 0 <= k < i && was[k].orgRepo == repo
      invariant forall k :: 0 <= k < i ==> refs[k] == PinnedRefs(was, repo, branch)[k]
      invariant forall k :: i <= k < refs.Length ==> refs[k] == was[k]
    {
      if refs[i].orgRepo != repo {
        continue;
      }
      related := true;
      refs[i] := refs[i].(baseRef := branch);
    }
  }

  /** One round of the loop over the periodics: whether a copy is forked, and the copy. */
  method ForkPeriodic(periodic: LoadedPeriodic, repo: string, branch: string, ghost was: Periodic,
      ghost done: seq<LoadedPeriodic>, ghost values: seq<Periodic>)
      returns (related: bool, forked: LoadedPeriodic)
    requires PeriodicValue(periodic) == was && PeriodicsAre(done, values)
    requires periodic.annotations !in PeriodicCells(done) && periodic.extraRefs !in PeriodicCells(done)
    modifies periodic.annotations, periodic.extraRefs
    ensures related <==> ToFork(was.annotations) && Related(was, repo)
    ensures related ==> PeriodicValue(forked) == ForkedPeriodic(was, repo, branch)
    ensures PeriodicsAre(done, values)
    ensures forked.annotations == periodic.annotations && forked.extraRefs == periodic.extraRefs
    ensures periodic.annotations.m == Spent(was.annotations)
  {
    hide ReplaceAll;
    assert forall k :: 0 <= k < |done| ==> done[k].annotations in PeriodicCells(done) && done[k].extraRefs in PeriodicCells(done);
    if FORK !in periodic.annotations.m || periodic.annotations.m[FORK] != "true" {
      return false, periodic;
    }
    SpendRequest(periodic.annotations);
    forked := periodic.(name := periodic.name + "-" + ReplaceAll(branch, '.', '-'));
    related := PinRefs(forked.extraRefs, repo, branch);
  }

  /** Spends the fork request of every annotated periodic, also of those it then drops as unrelated. */
  method GeneratePeriodics(periodics: seq<LoadedPeriodic>, repo: string, branch: string, ghost was: seq<Periodic>)
      returns (forked: seq<LoadedPeriodic>)
    requires UnsharedPeriodics(periodics) && PeriodicsAre(periodics, was)
    modifies PeriodicCells(periodics)
    ensures PeriodicsAre(forked, ForkedPeriodics(was, repo, branch))
    ensures PeriodicCells(forked) <= PeriodicCells(periodics)
    ensures forall i :: 0 <= i < |periodics| ==> periodics[i].annotations.m == Spent(was[i].annotations)
  {
    hide ForkedPeriodics, PeriodicsAre, PeriodicCells, PeriodicValue, Spent, ToFork, Related;
    FirstPeriodic(periodics, was, repo, branch);
    forked := [];
    for i := 0 to |periodics|
      invariant PeriodicCells(forked) <= PeriodicCells(periodics[..i])
      invariant PeriodicsAre(forked, ForkedPeriodics(was[..i], repo, branch))
      invariant forall k :: 0 <= k < i ==> periodics[k].annotations.m == Spent(was[k].annotations)
      invariant forall k :: i <= k < |periodics| ==> PeriodicValue(periodics[k]) == was[k]
    {
      NextForkedPeriodics(was, i, repo, branch);
      PeriodicAhead(periodics, i);
      var related, periodic := ForkPeriodic(periodics[i], repo, branch, was[i], forked, ForkedPeriodics(was[..i], repo, branch));
      if related {
        AppendPeriodic(forked, periodic, ForkedPeriodics(was[..i], repo, branch), ForkedPeriodic(was[i], repo, branch));
        forked := forked + [periodic];
      } else {
        assert ForkedPeriodics(was[..i + 1], repo, branch) == ForkedPeriodics(was[..i], repo, branch);
      }
    }
    assert was[..|periodics|] == was && periodics[..|periodics|] == periodics;
  }

  // ---------- Loading ----------

  method LoadJobs(jobs: seq<Job>) returns (loaded: seq<LoadedJob>)
    ensures Unshared(loaded) && JobsAre(loaded, jobs) && fresh(JobCells(loaded))
  {
    loaded := [];
    for i := 0 to |jobs|
      invariant Unshared(loaded) && JobsAre(loaded, jobs[..i]) && fresh(JobCells(loaded))
    {
      var j := jobs[i];
      hide JobsAre, JobCells, PeriodicsAre, PeriodicCells;
      var a := new Annotations(j.annotations);
      AppendJob(loaded, LoadedJob(j.name, a, j.branches, j.skipBranches, j.rest), jobs[..i], j);
      assert jobs[..i + 1] == jobs[..i] + [j];
      assert forall k :: 0 <= k < |loaded| ==> loaded[k].annotations in JobCells(loaded);
      loaded := loaded + [LoadedJob(j.name, a, j.branches, j.skipBranches, j.rest)];
    }
    assert jobs[..|jobs|] == jobs;
  }

  method LoadPeriodic(p: Periodic) returns (loaded: LoadedPeriodic)
    ensures PeriodicValue(loaded) == p && fresh(loaded.annotations) && fresh(loaded.extraRefs)
  {
    var a := new Annotations(p.annotations);
    var refs := new ExtraRef[|p.extraRefs|](k requires 0 <= k < |p.extraRefs| => p.extraRefs[k]);
    assert refs[..] == p.extraRefs;
    loaded := LoadedPeriodic(p.name, a, refs, p.rest);
  }

  method LoadPeriodics(periodics: seq<Periodic>) returns (loaded: seq<LoadedPeriodic>)
    ensures UnsharedPeriodics(loaded) && PeriodicsAre(loaded, periodics) && fresh(PeriodicCells(loaded))
  {
    loaded := [];
    for i := 0 to |periodics|
      invariant UnsharedPeriodics(loaded) && PeriodicsAre(loaded, periodics[..i]) && fresh(PeriodicCells(loaded))
    {
      hide PeriodicsAre, PeriodicCells, UnsharedPeriodics;
      var p := LoadPeriodic(periodics[i]);
      AppendPeriodic(loaded, p, periodics[..i], periodics[i]);
      AppendUnshared(loaded, p);
      assert periodics[..i + 1] == periodics[..i] + [periodics[i]];
      loaded := loaded + [p];
    }
    assert periodics[..|periodics|] == periodics;
  }

  /** Reading a file allocates everything anew. */
  method ReadJobConfig(file: JobConfig, repo: string) returns (l: Loaded)
    ensures Unshared(l.presubmits) && JobsAre(l.presubmits, JobsOf(file.presubmits, repo)) && fresh(JobCells(l.presubmits))
    ensures Unshared(l.postsubmits) && JobsAre(l.postsubmits, JobsOf(file.postsubmits, repo)) && fresh(JobCells(l.postsubmits))
    ensures UnsharedPeriodics(l.periodics) && PeriodicsAre(l.periodics, file.periodics) && fresh(PeriodicCells(l.periodics))
    ensures JobCells(l.presubmits) !! JobCells(l.postsubmits) !! PeriodicCells(l.periodics)
  {
    var presubmits := LoadJobs(JobsOf(file.presubmits, repo));
    var postsubmits := LoadJobs(JobsOf(file.postsubmits, repo));
    var periodics := LoadPeriodics(file.periodics);
    l := Loaded(presubmits, postsubmits, periodics);
  }

  /** What one file contributes to a branch; the loaded file is spent and forgotten. */
  method ForkFile(file: JobConfig, repo: string, branch: string)
      returns (presubmits: seq<LoadedJob>, postsubmits: seq<LoadedJob>, periodics: seq<LoadedPeriodic>)
    ensures Holds(presubmits, postsubmits, periodics,
                  Payload(ForkedJobs(JobsOf(file.presubmits, repo), branch),
                          ForkedJobs(JobsOf(file.postsubmits, repo), branch),
                          ForkedPeriodics(file.periodics, repo, branch)))
  {
    hide JobsAre, PeriodicsAre, ForkedJobs, ForkedPeriodics, Unshared, UnsharedPeriodics;
    var j := ReadJobConfig(file, repo);
    presubmits := GenerateJobs(j.presubmits, branch, JobsOf(file.presubmits, repo));
    postsubmits := GenerateJobs(j.postsubmits, branch, JobsOf(file.postsubmits, repo));
    periodics := GeneratePeriodics(j.periodics, repo, branch, file.periodics);
  }

  /** Adds what one file contributes to a branch; the loaded file is spent and forgotten. */
  method ForkFromFile(file: JobConfig, repo: string, branch: string,
      presubmits: seq<LoadedJob>, postsubmits: seq<LoadedJob>, periodics: seq<LoadedPeriodic>, ghost p: Payload)
      returns (newPresubmits: seq<LoadedJob>, newPostsubmits: seq<LoadedJob>, newPeriodics: seq<LoadedPeriodic>)
    requires Holds(presubmits, postsubmits, periodics, p)
    ensures Holds(newPresubmits, newPostsubmits, newPeriodics,
                  Payload(p.presubmits + ForkedJobs(JobsOf(file.presubmits, repo), branch),
                          p.postsubmits + ForkedJobs(JobsOf(file.postsubmits, repo), branch),
                          p.periodics + ForkedPeriodics(file.periodics, repo, branch)))
  {
    hide ForkedJobs, ForkedPeriodics;
    var a, b, c := ForkFile(file, repo, branch);
    newPresubmits, newPostsubmits, newPeriodics := presubmits + a, postsubmits + b, periodics + c;
  }

  /** The loaded jobs stand for the payload. */
  ghost predicate Holds(presubmits: seq<LoadedJob>, postsubmits: seq<LoadedJob>, periodics: seq<LoadedPeriodic>, p: Payload)
    reads JobCells(presubmits), JobCells(postsubmits), PeriodicCells(periodics)
  {
    JobsAre(presubmits, p.presubmits) && JobsAre(postsubmits, p.postsubmits) && PeriodicsAre(periodics, p.periodics)
  }

  lemma NoPayload(repo: string, branch: string)
    ensures PayloadFor([], repo, branch) == Payload([], [], []) && Holds([], [], [], Payload([], [], []))
  {
  }

  lemma NextPayload(configs: seq<JobConfig>, i: nat, repo: string, branch: string)
    requires i < |configs|
    ensures var p := PayloadFor(configs[..i], repo, branch);
            PayloadFor(configs[..i + 1], repo, branch)
            == Payload(p.presubmits + ForkedJobs(JobsOf(configs[i].presubmits, repo), branch),
                       p.postsubmits + ForkedJobs(JobsOf(configs[i].postsubmits, repo), branch),
                       p.periodics + ForkedPeriodics(configs[i].periodics, repo, branch))
  {
    hide ForkedJobs, ForkedPeriodics, JobsOf;
    assert configs[..i + 1][..i] == configs[..i];
  }

  /** The file content is what the loaded jobs hold at the time of writing. */
  method Marshal(presubmits: seq<LoadedJob>, postsubmits: seq<LoadedJob>, periodics: seq<LoadedPeriodic>, ghost p: Payload)
      returns (payload: Payload)
    requires Holds(presubmits, postsubmits, periodics, p)
    ensures payload == p
    ensures |presubmits| == |p.presubmits| && |postsubmits| == |p.postsubmits| && |periodics| == |p.periodics|
  {
    var a := seq(|presubmits|, i requires 0 <= i < |presubmits| reads JobCells(presubmits) => JobValue(presubmits[i]));
    var b := seq(|postsubmits|, i requires 0 <= i < |postsubmits| reads JobCells(postsubmits) => JobValue(postsubmits[i]));
    var c := seq(|periodics|, i requires 0 <= i < |periodics| reads PeriodicCells(periodics) => PeriodicValue(periodics[i]));
    assert a == p.presubmits && b == p.postsubmits && c == p.periodics;
    payload := Payload(a, b, c);
  }

  // ---------- The output directory ----------

  /** What follows the last dot of a file name, with the dot. */
  function Ext(file: string): (e: string)
    ensures |e| <= |file| && e == file[|file| - |e|..]
    ensures e != "" ==> e[0] == '.'
  {
    if file == "" || file[|file| - 1] == '/' then ""
    else if file[|file| - 1] == '.' then "."
    else
      var e := Ext(file[..|file| - 1]);
      if e == "" then "" else e + [file[|file| - 1]]
  }

  lemma {:induction false} ExtIs(file: string, e: string)
    requires |e| <= |file| && e == file[|file| - |e|..]
    requires e != "" && e[0] == '.' && forall i :: 1 <= i < |e| ==> e[i] != '.' && e[i] != '/'
    ensures Ext(file) == e
  {
    if |e| > 1 {
      var f, e' := file[..|file| - 1], e[..|e| - 1];
      ExtIs(f, e');
      assert e == e' + [file[|file| - 1]];
    }
  }

  lemma PlainExt()
    ensures forall i :: 1 <= i < |".yaml"| ==> ".yaml"[i] != '.' && ".yaml"[i] != '/'
    ensures forall i :: 1 <= i < |".yml"| ==> ".yml"[i] != '.' && ".yml"[i] != '/'
  {
  }

  lemma ExtOfYaml(file: string)
    ensures IsYaml(file) <==> Ext(file) == ".yaml" || Ext(file) == ".yml"
  {
    hide Ext;
    PlainExt();
    var long, short := ".yaml", ".yml";
    assert |long| == 5 && |short| == 4 && long[0] == '.' && short[0] == '.';
    ExtIff(file, long);
    ExtIff(file, short);
  }

  lemma ExtIff(file: string, e: string)
    requires e != "" && e[0] == '.' && forall i :: 1 <= i < |e| ==> e[i] != '.' && e[i] != '/'
    ensures Ext(file) == e <==> |file| >= |e| && file[|file| - |e|..] == e
  {
    hide Ext;
    if |file| >= |e| && file[|file| - |e|..] == e {
      ExtIs(file, e);
    }
  }

  class Directory {
    var files: Files

    /** Writes the file of a branch unless there is one, from configurations read anew. */
    method ForkJobs(inp: Inputs, repo: string, branch: string) returns (changed: bool)
      modifies this
      ensures files == ForkBranch(inp, old(files), repo, branch)
      ensures changed <==> files != old(files)
    {
      hide Holds, PayloadFor, ForkedJobs, ForkedPeriodics, FileOf;
      if FileOf(repo, branch) in files {
        return false;
      }
      var presubmits, postsubmits, periodics := [], [], [];
      ghost var p := PayloadFor([], repo, branch);
      NoPayload(repo, branch);
      for i := 0 to |inp.configs|
        invariant p == PayloadFor(inp.configs[..i], repo, branch)
        invariant Holds(presubmits, postsubmits, periodics, p) && files == old(files)
      {
        presubmits, postsubmits, periodics := ForkFromFile(inp.configs[i], repo, branch, presubmits, postsubmits, periodics, p);
        NextPayload(inp.configs, i, repo, branch);
        p := PayloadFor(inp.configs[..i + 1], repo, branch);
      }
      assert inp.configs[..|inp.configs|] == inp.configs;
      var payload := Marshal(presubmits, postsubmits, periodics, p);
      if |presubmits| == 0 && |postsubmits| == 0 && |periodics| == 0 {
        assert payload == Payload([], [], []);
        return false;
      }
      files := files[FileOf(repo, branch) := payload];
      changed := true;
    }

    /** Deletes the yaml files that look like the repository's but belong to none of the branches. */
    method RemoveOrphanedJobs(repo: string, branches: seq<string>) returns (changed: bool)
      modifies this
      ensures files == RemoveOrphans(old(files), repo, branches)
      ensures changed <==> files != old(files)
    {
      hide IsYaml, Ext, TargetFileName, ReplaceAll;
      changed := false;
      var todo := files.Keys;
      while todo != {}
        invariant todo <= old(files).Keys
        invariant files == map f | f in old(files) && (f in todo || !Orphan(f, repo, branches)) :: old(files)[f]
        invariant changed <==> files != old(files)
        decreases |todo|
      {
        var file :| file in todo;
        ghost var before, rest := files, todo - {file};
        todo := todo - {file};
        var ext := Ext(file);
        ExtOfYaml(file);
        if ext != ".yaml" && ext != ".yml" {
          assert !Orphan(file, repo, branches);
          continue;
        }
        if !(ReplaceAll(repo, '/', '-') <= file) {
          assert !Orphan(file, repo, branches);
          continue;
        }
        var matches := false;
        for k := 0 to |branches|
          invariant !matches ==> forall i :: 0 <= i < k ==> file != TargetFileName(repo, branches[i])
          invariant matches ==> IsTarget(file, repo, branches)
        {
          if file == TargetFileName(repo, branches[k]) {
            matches := true;
            break;
          }
        }
        if !matches {
          assert file in files && file in old(files);
          files := files - {file};
          changed := true;
        }
      }
    }

    /**
     One run: every handled repository in an arbitrary order, its live branches forked, then its orphans
     removed. The flag is raised whenever the directory changed and stays down on a settled directory.
     */
    method GenerateForkedConfigurations(inp: Inputs) returns (changed: bool, ghost order: seq<string>)
      modifies this
      ensures SameElements(order, order) && forall repo :: repo in order <==> Mentioned(inp.configs, repo)
      ensures files == RunAll(inp, old(files), order)
      ensures files != old(files) ==> changed
      ensures Settled(inp, old(files), order) ==> !changed
    {
      hide Complete, Clean, ForkBranch, RemoveOrphans, Mentioned;
      changed := false;
      var repos := ReposFromJobFiles(inp.configs);
      order := repos;
      for i := 0 to |repos|
        invariant files == RunAll(inp, old(files), repos[..i])
        invariant files != old(files) ==> changed
        invariant Settled(inp, old(files), order) ==> !changed
      {
        assert repos[..i + 1][..i] == repos[..i];
        assert repos[i] in order;
        ghost var before := files;
        var branches := inp.live(repos[i]);
        for k := 0 to |branches|
          invariant files == ForkBranches(inp, before, repos[i], branches[..k])
          invariant files != old(files) ==> changed
          invariant Settled(inp, old(files), order) ==> !changed
        {
          assert branches[..k + 1][..k] == branches[..k];
          var result := ForkJobs(inp, repos[i], branches[k]);
          if Settled(inp, old(files), order) {
            SettledBranches(inp, old(files), repos[i], branches[..k + 1]);
          }
          changed := changed || result;
        }
        assert branches[..|branches|] == branches;
        var result := RemoveOrphanedJobs(repos[i], branches);
        if Settled(inp, old(files), order) {
          SettledRepo(inp, old(files), repos[i]);
        }
        changed := changed || result;
      }
      assert repos[..|repos|] == repos;
    }
  }

  // ---------- The handled repositories ----------

  ghost predicate MentionedIn(c: JobConfig, repo: string) {
    repo in c.presubmits || repo in c.postsubmits || exists i :: 0 <= i < |c.periodics| && Mentions(c.periodics[i].extraRefs, repo)
  }

  ghost predicate Mentioned(configs: seq<JobConfig>, repo: string) {
    exists i :: 0 <= i < |configs| && MentionedIn(configs[i], repo)
  }

  /** Every repository a job file mentions, once, in the arbitrary order of a Go map. */
  method ReposFromJobFiles(configs: seq<JobConfig>) returns (repos: seq<string>)
    ensures forall repo :: repo in repos <==> Mentioned(configs, repo)
    ensures SameElements(repos, repos)
  {
    hide MentionedIn;
    var found: set<string> := {};
    for i := 0 to |configs|
      invariant forall repo :: repo in found <==> exists k :: 0 <= k < i && MentionedIn(configs[k], repo)
    {
      var more := ReposOf(configs[i]);
      found := found + more;
    }
    repos := InSomeOrder(found);
  }

  method ReposOf(c: JobConfig) returns (found: set<string>)
    ensures forall repo :: repo in found <==> MentionedIn(c, repo)
  {
    hide Mentions;
    found := c.presubmits.Keys + c.postsubmits.Keys;
    for i := 0 to |c.periodics|
      invariant forall repo :: repo in found <==>
        repo in c.presubmits || repo in c.postsubmits || exists k :: 0 <= k < i && Mentions(c.periodics[k].extraRefs, repo)
    {
      var more := ReposOfPeriodic(c.periodics[i]);
      found := found + more;
    }
  }

  method ReposOfPeriodic(p: Periodic) returns (found: set<string>)
    ensures forall repo :: repo in found <==> Mentions(p.extraRefs, repo)
  {
    found := {};
    for i := 0 to |p.extraRefs|
      invariant forall repo :: repo in found <==> exists ref :: ref in p.extraRefs[..i] && ref.orgRepo == repo
    {
      assert p.extraRefs[..i + 1] == p.extraRefs[..i] + [p.extraRefs[i]];
      found := found + {p.extraRefs[i].orgRepo};
    }
    assert p.extraRefs[..|p.extraRefs|] == p.extraRefs;
  }

  method InSomeOrder(keys: set<string>) returns (order: seq<string>)
    ensures forall key :: key in order <==> key in keys
    ensures SameElements(order, order)
  {
    order := [];
    var rest := keys;
    while rest != {}
      invariant rest <= keys
      invariant forall key :: key in order <==> key in keys && key !in rest
      invariant SameElements(order, order)
      decreases |rest|
    {
      var key :| key in rest;
      order := order + [key];
      rest := rest - {key};
    }
  }
}
