/**
 The image-builder reconciler in its own form: a class whose methods update its fields and talk to
 the cluster.  Every method is proved to make only moves of the state machine in `BuildMachine`, so
 whatever holds for all runs of the machine holds for every history of `Reconcile` calls.
 */
module BuildController {
  import opened Wrappers
  import opened BuildMachine

  /** What the options and the variants file determine about the build pods. */
  datatype Options = Options(
    podName: string -> PodName,
    variants: seq<Option<string>>,
    targets: seq<string>,
    useCache: bool)

  function TargetPod(o: Options, variant: Option<string>, i: nat): BuildPod
    requires i < |o.targets|
  {
    var target := o.targets[i];
    BuildPod(o.podName(if variant.Some? then variant.value + "-" + target else target),
             if i == 0 && o.useCache then CreateCache(variant) else ParallelBuild)
  }

  /** The pods for the first n targets of a variant. */
  function VariantPods(o: Options, variant: Option<string>, n: nat): (pods: seq<BuildPod>)
    requires n <= |o.targets|
    ensures |pods| == n && forall i :: 0 <= i < n ==> pods[i] == TargetPod(o, variant, i)
  {
    if n == 0 then [] else VariantPods(o, variant, n - 1) + [TargetPod(o, variant, n - 1)]
  }

  /** The pods for all targets of all given variants. */
  function AllVariantPods(o: Options, variants: seq<Option<string>>): seq<BuildPod> {
    if variants == [] then []
    else AllVariantPods(o, variants[..|variants| - 1]) + VariantPods(o, variants[|variants| - 1], |o.targets|)
  }

  lemma AllVariantPodsStep(o: Options, variants: seq<Option<string>>, v: nat)
    requires v < |variants|
    ensures AllVariantPods(o, variants[..v + 1])
         == AllVariantPods(o, variants[..v]) + VariantPods(o, variants[v], |o.targets|)
  {
    assert variants[..v + 1][..v] == variants[..v];
  }

  /** The clonerefs pod first, then every target of every variant. */
  function Definition(o: Options): seq<BuildPod> {
    [BuildPod(o.podName("clonerefs"), Clonerefs)] + AllVariantPods(o, o.variants)
  }

  ghost predicate DistinctNames(pods: seq<BuildPod>) {
    forall i, j :: 0 <= i < j < |pods| ==> pods[i].name != pods[j].name
  }

  lemma {:induction false} VariantGroupsAreSet(o: Options, variants: seq<Option<string>>)
    ensures forall i :: 0 <= i < |AllVariantPods(o, variants)| ==>
              AllVariantPods(o, variants)[i].group != NoGroup && AllVariantPods(o, variants)[i].group != Clonerefs
  {
    if variants == [] {
    } else {
      VariantGroupsAreSet(o, variants[..|variants| - 1]);
    }
  }

  /** Distinct pod names are all it takes for the definition to be usable. */
  lemma DefinitionIsWellFormed(o: Options)
    requires DistinctNames(Definition(o))
    ensures WellFormed(Definition(o))
  {
    VariantGroupsAreSet(o, o.variants);
  }

  lemma {:induction false} VariantSlice(o: Options, variants: seq<Option<string>>, v: nat)
    requires v < |variants|
    ensures var all, base := AllVariantPods(o, variants), |AllVariantPods(o, variants[..v])|;
            base + |o.targets| <= |all| && all[base..base + |o.targets|] == VariantPods(o, variants[v], |o.targets|)
  {
    hide VariantPods;
    var front, n := variants[..|variants| - 1], |o.targets|;
    var a, b := AllVariantPods(o, front), VariantPods(o, variants[|variants| - 1], n);
    if v == |variants| - 1 {
      assert variants[..v] == front;
      SliceOfSum(a, b, |a|, |a| + n);
    } else {
      VariantSlice(o, front, v);
      assert front[..v] == variants[..v];
      var base := |AllVariantPods(o, variants[..v])|;
      SliceOfSum(a, b, base, base + n);
    }
  }

  lemma SliceOfSum<T>(a: seq<T>, b: seq<T>, lo: nat, hi: nat)
    requires lo <= hi <= |a| + |b|
    ensures hi <= |a| ==> (a + b)[lo..hi] == a[lo..hi]
    ensures lo == |a| && hi == |a| + |b| ==> (a + b)[lo..hi] == b
  {
  }

  lemma VariantPodsAt(o: Options, v: nat, i: nat)
    requires v < |o.variants| && i < |o.targets|
    ensures var base := 1 + |AllVariantPods(o, o.variants[..v])|;
            base + i < |Definition(o)| && Definition(o)[base + i] == TargetPod(o, o.variants[v], i)
  {
    var b, n := |AllVariantPods(o, o.variants[..v])|, |o.targets|;
    VariantSlice(o, o.variants, v);
    SliceAt(AllVariantPods(o, o.variants), b, n, i);
  }

  lemma SliceAt<T>(s: seq<T>, b: nat, n: nat, i: nat)
    requires b + n <= |s| && i < n
    ensures s[b + i] == s[b..b + n][i]
  {
  }

  lemma BoundaryAfter(pods: seq<BuildPod>, j: nat, k: nat)
    requires j < k < |pods| && pods[j].group != pods[j + 1].group
    ensures Boundary(pods, j, k)
  {
    assert pods[(j + 1) - 1].group != pods[j + 1].group;
  }

  lemma {:induction false} VariantsLength(o: Options, variants: seq<Option<string>>)
    ensures |AllVariantPods(o, variants)| == |variants| * |o.targets|
  {
    if variants == [] {
    } else {
      var n := |variants| - 1;
      VariantsLength(o, variants[..n]);
      assert (n + 1) * |o.targets| == n * |o.targets| + |o.targets|;
    }
  }

  /** Where the pod for target i of variant v stands in the definition. */
  function Place(o: Options, v: nat, i: nat): nat {
    1 + v * |o.targets| + i
  }

  /** The definition, position by position. */
  lemma DefinitionAt(o: Options, v: nat, i: nat)
    requires v < |o.variants| && i < |o.targets|
    ensures |Definition(o)| == 1 + |o.variants| * |o.targets|
    ensures Definition(o)[0].name == o.podName("clonerefs") && Definition(o)[0].group == Clonerefs
    ensures Place(o, v, i) < |Definition(o)|
    ensures Definition(o)[Place(o, v, i)].name
         == o.podName(match o.variants[v] case Some(name) => name + "-" + o.targets[i] case None => o.targets[i])
    ensures Definition(o)[Place(o, v, i)].group == if o.useCache && i == 0 then CreateCache(o.variants[v]) else ParallelBuild
  {
    VariantsLength(o, o.variants);
    VariantsLength(o, o.variants[..v]);
    VariantPodsAt(o, v, i);
  }

  /**
   What the build groups are for: no target is built before the repository has been cloned, and with
   a cache no further target of a variant is built before the one that fills this variant's cache.
   */
  lemma GroupsOrderTheBuild(o: Options, v: nat, i: nat)
    requires v < |o.variants| && i < |o.targets|
    ensures Place(o, v, 0) <= Place(o, v, i) < |Definition(o)|
    ensures Boundary(Definition(o), 0, Place(o, v, i))
    ensures o.useCache && i > 0 ==> Boundary(Definition(o), Place(o, v, 0), Place(o, v, i))
  {
    var pods := Definition(o);
    DefinitionAt(o, v, i);
    DefinitionAt(o, 0, 0);
    hide Definition;
    BoundaryAfter(pods, 0, Place(o, v, i));
    if o.useCache && i > 0 {
      DefinitionAt(o, v, 0);
      DefinitionAt(o, v, 1);
      BoundaryAfter(pods, Place(o, v, 0), Place(o, v, i));
    }
  }

  lemma {:induction false} WithoutCacheAllParallel(o: Options, variants: seq<Option<string>>)
    requires !o.useCache
    ensures forall k :: 0 <= k < |AllVariantPods(o, variants)| ==> AllVariantPods(o, variants)[k].group == ParallelBuild
  {
    if variants == [] {
    } else {
      WithoutCacheAllParallel(o, variants[..|variants| - 1]);
    }
  }

  /** With a cache, the targets of a variant other than its first are all built at once. */
  lemma TargetsShareAGroup(o: Options, v: nat, j: nat, k: nat)
    requires o.useCache && v < |o.variants| && 1 <= j <= k < |o.targets|
    ensures Place(o, v, k) < |Definition(o)| && !Boundary(Definition(o), Place(o, v, j), Place(o, v, k))
  {
    DefinitionAt(o, v, k);
    forall m | Place(o, v, j) <= m <= Place(o, v, k)
      ensures m < |Definition(o)| && Definition(o)[m].group == ParallelBuild
    {
      DefinitionAt(o, v, m - Place(o, v, 0));
    }
  }

  /** Without a cache, all targets of all variants are built at once. */
  lemma AllShareAGroup(o: Options)
    requires !o.useCache && |Definition(o)| > 1
    ensures !Boundary(Definition(o), 1, |Definition(o)| - 1)
  {
    WithoutCacheAllParallel(o, o.variants);
  }

  /** With a cache, different variants fill their caches in different groups. */
  lemma CachesAreApart(o: Options, v: nat, w: nat)
    requires o.useCache && o.targets != [] && v < |o.variants| && w < |o.variants| && o.variants[v] != o.variants[w]
    ensures Place(o, v, 0) < |Definition(o)| && Place(o, w, 0) < |Definition(o)|
    ensures Definition(o)[Place(o, v, 0)].group != Definition(o)[Place(o, w, 0)].group
  {
    DefinitionAt(o, v, 0);
    DefinitionAt(o, w, 0);
  }

  /** The cluster as the controller can use it; other actors move it at any time. */
  class Cluster {
    var actual: map<PodName, Phase>
    var cached: map<PodName, Phase>
    var log: seq<PodName>
    /** The pods whose logs have been saved. */
    var collected: set<PodName>

    function State(): ClusterState
      reads this
    {
      ClusterState(actual, cached, log)
    }

    /** The cached view holds past phases of existing pods. */
    ghost predicate Valid()
      reads this
    {
      forall n :: n in cached ==> n in actual && Leads(cached[n], actual[n])
    }

    constructor ()
      ensures Valid() && State() == ClusterState(map[], map[], [])
    {
      actual, cached, log, collected := map[], map[], [], {};
    }

    /** Pods make progress and the cache catches up, both by an arbitrary amount. */
    method Interfere()
      requires Valid()
      modifies this
      ensures Valid() && EnvStep(old(State()), State()) && collected == old(collected)
    {
      var before := State();
      assert EnvStep(before, before);
      var after :| EnvStep(before, after);
      actual, cached := after.actual, after.cached;
      assert EnvStep(before, after);
      assert actual == after.actual && cached == after.cached && log == before.log;
    }

    method Get() returns (ok: bool)
    {
      ok := *;
    }

    /** Saves the logs of a pod, or fails. */
    method GetLogs(name: PodName) returns (ok: bool)
      requires Valid()
      modifies `collected
      ensures Valid() && collected == if ok then old(collected) + {name} else old(collected)
    {
      ok := *;
      if ok {
        collected := collected + {name};
      }
    }

    /** Lists the cached pods in an arbitrary order, or fails. */
    method List() returns (items: Option<seq<Item>>)
      ensures items.Some? ==> Snapshot(items.value, cached)
    {
      if * {
        return None;
      }
      var todo := cached.Keys;
      var found: seq<Item> := [];
      while todo != {}
        invariant todo <= cached.Keys
        invariant forall i, j :: 0 <= i < j < |found| ==> found[i].name != found[j].name
        invariant forall i :: 0 <= i < |found| ==>
                    found[i].name in cached && found[i].name !in todo && cached[found[i].name] == found[i].phase
        invariant forall n :: n in cached && n !in todo ==> Item(n, cached[n]) in found
        decreases |todo|
      {
        var n :| n in todo;
        found := found + [Item(n, cached[n])];
        todo := todo - {n};
      }
      return Some(found);
    }

    method Create(name: PodName) returns (ok: bool)
      requires Valid()
      modifies this
      ensures Valid() && CreateStep(old(State()), name, ok, State()) && collected == old(collected)
    {
      var accepted, answered: bool := *, *;
      if name !in actual && accepted {
        actual := actual[name := Pending];
        log := log + [name];
        ok := answered;
      } else {
        ok := false;
      }
    }
  }

  ghost function Tracked(phase: map<PodName, Phase>): set<Item> {
    set n | n in phase :: Item(n, phase[n])
  }

  ghost predicate BusyAt(tr: seq<Sys>, i: nat)
    requires i < |tr|
  {
    !tr[i].pc.Idle?
  }

  /** A history has grown, and its worker has not been idle in between. */
  ghost predicate Extends(before: seq<Sys>, after: seq<Sys>) {
    && 0 < |before| && before <= after
    && forall i :: |before| - 1 <= i < |after| - 1 ==> BusyAt(after, i)
  }

  lemma ExtendsByOne(before: seq<Sys>, tr: seq<Sys>, s: Sys)
    requires Extends(before, tr) && !tr[|tr| - 1].pc.Idle?
    ensures Extends(before, tr + [s])
  {
    var after := tr + [s];
    forall i | |before| - 1 <= i < |after| - 1
      ensures BusyAt(after, i)
    {
      if i < |tr| - 1 {
        assert BusyAt(tr, i);
      }
    }
  }

  class BuildReconciler {
    const client: Cluster
    const imageBuilderPod: PodName
    const options: Options
    var canceled: bool
    var buildPods: seq<BuildPod>
    var buildPodPhase: map<PodName, Phase>
    var err: Option<BuildError>
    var errorCount: nat

    /** The point the worker has reached, and everything that happened so far. */
    ghost var pc: Pc
    ghost var trace: seq<Sys>

    ghost function Current(): Sys
      reads this, client
    {
      Sys(buildPods, buildPodPhase, errorCount, canceled, err, pc, client.State())
    }

    /** The pods have not been defined yet or are those that the options ask for, with distinct names. */
    ghost predicate Defined()
      reads this
    {
      DistinctNames(Definition(options)) && (buildPods == [] || buildPods == Definition(options))
    }

    /** The logs of every pod that is known to have ended have been saved. */
    ghost predicate LogsCollected()
      reads this, client
    {
      forall n :: n in buildPodPhase && (buildPodPhase[n] == Succeeded || buildPodPhase[n] == Failed) ==> n in client.collected
    }

    /** The history is a run of the machine and ends in the present state. */
    ghost predicate Valid()
      reads this, client
    {
      && client.Valid()
      && Run(trace)
      && trace[|trace| - 1] == Current()
      && Defined() && LogsCollected()
    }

    constructor (client: Cluster, imageBuilderPod: PodName, options: Options)
      requires client.Valid() && client.State() == ClusterState(map[], map[], [])
      requires DistinctNames(Definition(options))
      ensures Valid() && pc.Idle? && |trace| == 1 && Init(trace[0])
      ensures this.client == client && this.options == options && this.imageBuilderPod == imageBuilderPod
    {
      this.client, this.imageBuilderPod, this.options := client, imageBuilderPod, options;
      canceled, buildPods, buildPodPhase, err, errorCount := false, [], map[], None, 0;
      pc := Idle;
      trace := [Sys([], map[], 0, false, None, Idle, ClusterState(map[], map[], []))];
    }

    /** Appends the present state to the history, which grows since the point `base`. */
    ghost method Record(a: Action, base: seq<Sys>)
      requires client.Valid() && Run(trace) && Defined() && LogsCollected()
      requires Does(a, trace[|trace| - 1], Current())
      modifies this`trace
      ensures Valid() && trace == old(trace) + [Current()]
      ensures old(Extends(base, trace) && !trace[|trace| - 1].pc.Idle?) ==> Extends(base, trace)
    {
      ExtendRun(trace, Current());
      if Extends(base, trace) && !trace[|trace| - 1].pc.Idle? {
        ExtendsByOne(base, trace, Current());
      }
      trace := trace + [Current()];
    }

    /** Time passes before the next call to the cluster. */
    method Pause(ghost base: seq<Sys>)
      requires Valid() && !pc.Idle? && Extends(base, trace)
      modifies this`trace, client
      ensures Valid() && Extends(base, trace)
      ensures client.log == old(client.log)
    {
      client.Interfere();
      Record(ActEnvironment, base);
    }

    /** One call: the history grows by exactly one complete reconcile, from Begin back to idle. */
    method Reconcile(request: PodName) returns (result: Option<BuildError>)
      requires Valid() && pc.Idle?
      modifies this, client
      ensures Valid() && pc.Idle?
      ensures request != imageBuilderPod ==> trace == old(trace) && result == None
      ensures request == imageBuilderPod ==>
                && |old(trace)| + 1 < |trace|
                && Begin(old(Current()), trace[|old(trace)|])
                && Extends(old(trace) + [trace[|old(trace)|]], trace)
      ensures errorCount == old(errorCount) + (if result.Some? then 1 else 0)
    {
      hide Run, DistinctNames, Definition, Cluster.Valid;
      if request != imageBuilderPod {
        return None;
      }
      pc := Getting;
      Record(ActBegin, trace);
      ghost var base := trace;
      result := Attempt(base);
      if result.Some? {
        errorCount := errorCount + 1;
        if errorCount > MAX_ERRORS {
          Stop(result);
        }
        pc := Idle;
        Record(ActHandle, base);
      }
      assert trace[|trace| - 1].pc.Idle? && base[|base| - 1].pc.Getting?;
    }

    /** The body of a reconcile, up to the deferred error handler. */
    method Attempt(ghost base: seq<Sys>) returns (result: Option<BuildError>)
      requires Valid() && pc.Getting? && Extends(base, trace)
      modifies this, client
      ensures Valid() && Extends(base, trace)
      ensures pc == (if result.Some? then Returning(result.value) else Idle)
      ensures errorCount == old(errorCount)
    {
      hide Run, Extends, DistinctNames, Definition, Cluster.Valid;
      Pause(base);
      var ok := client.Get();
      pc := if ok then Defining else Returning(GetFailed);
      Record(ActGet, base);
      if !ok {
        return Some(GetFailed);
      }
      result := EnsureBuildPodDefinition(base);
      if result.Some? {
        return;
      }
      result := ReconcileBuildPods(base);
    }

    method Stop(e: Option<BuildError>)
      modifies this`canceled, this`err
      ensures Current() == Stopped(old(Current()), e)
    {
      if !canceled {
        if e != None {
          err := e;
        }
        canceled := true;
      }
    }

    method EnsureBuildPodDefinition(ghost base: seq<Sys>) returns (result: Option<BuildError>)
      requires Valid() && pc.Defining? && Extends(base, trace)
      modifies this, client
      ensures Valid() && Extends(base, trace)
      ensures pc == (if result.Some? then Returning(result.value) else Listing)
      ensures buildPods == if result.Some? then [] else Definition(options)
      ensures old(buildPods) != [] ==> result == None && buildPods == old(buildPods)
      ensures errorCount == old(errorCount)
    {
      hide Run, Extends, Cluster.Valid;
      result := None;
      if |buildPods| == 0 {
        Pause(base);
        var ok := client.Get();
        if ok {
          ok := DefineBuildPods();
        }
        if !ok {
          buildPods := [];
          result := Some(DefineFailed);
        }
      }
      pc := if result.Some? then Returning(result.value) else Listing;
      DefinitionIsWellFormed(options);
      Record(ActDefine, base);
    }

    /** Appends pod by pod; any single pod definition can fail. */
    method DefineBuildPods() returns (ok: bool)
      requires buildPods == []
      modifies this`buildPods
      ensures ok ==> buildPods == Definition(options)
    {
      ok := *;
      if ok {
        buildPods := buildPods + [BuildPod(options.podName("clonerefs"), Clonerefs)];
        ok := DefineAllVariantPods();
      }
    }

    method DefineAllVariantPods() returns (ok: bool)
      modifies this`buildPods
      ensures ok ==> buildPods == old(buildPods) + AllVariantPods(options, options.variants)
    {
      var variants := options.variants;
      ghost var done := [];
      for v := 0 to |variants|
        invariant done == AllVariantPods(options, variants[..v])
        invariant buildPods == old(buildPods) + done
      {
        ok := DefineVariantPods(variants[v]);
        if !ok {
          return;
        }
        AllVariantPodsStep(options, variants, v);
        done := done + VariantPods(options, variants[v], |options.targets|);
      }
      assert variants[..|variants|] == variants;
      return true;
    }

    method DefineVariantPods(variant: Option<string>) returns (ok: bool)
      modifies this`buildPods
      ensures ok ==> buildPods == old(buildPods) + VariantPods(options, variant, |options.targets|)
    {
      for i := 0 to |options.targets|
        invariant buildPods == old(buildPods) + VariantPods(options, variant, i)
      {
        ok := *;
        if !ok {
          return;
        }
        var target := options.targets[i];
        var podName := options.podName(target);
        if variant.Some? {
          podName := options.podName(variant.value + "-" + target);
        }
        var buildGroup := ParallelBuild;
        if i == 0 && options.useCache {
          buildGroup := CreateCache(variant);
        }
        buildPods := buildPods + [BuildPod(podName, buildGroup)];
      }
      return true;
    }

    method ReconcileBuildPods(ghost base: seq<Sys>) returns (result: Option<BuildError>)
      requires Valid() && pc.Listing? && Extends(base, trace)
      modifies this, client
      ensures Valid() && Extends(base, trace)
      ensures pc == (if result.Some? then Returning(result.value) else Idle)
      ensures errorCount == old(errorCount)
    {
      hide Run, Extends, DistinctNames, Definition, Cluster.Valid, ShouldRun;
      Pause(base);
      var listed := client.List();
      pc := if listed.Some? then Collecting(listed.value, 0, 0, 0) else Returning(ListFailed);
      Record(ActList, base);
      if listed == None {
        return Some(ListFailed);
      }
      var items := listed.value;
      var runningPods, failedPods := 0, 0;
      for i := 0 to |items|
        invariant Valid() && Extends(base, trace)
        invariant pc == Collecting(items, i, runningPods, failedPods)
        invariant errorCount == old(errorCount)
      {
        var ok;
        ok, runningPods, failedPods := CollectStatus(items, i, runningPods, failedPods, base);
        if !ok {
          return Some(LogsFailed);
        }
      }
      if runningPods == 0 {
        result := ContinueBuild(items, failedPods, base);
      } else {
        pc := Idle;
        Record(ActDecide, base);
        result := None;
      }
    }

    /** Takes note of one listed pod, collecting the logs of a pod that has just ended. */
    method CollectStatus(items: seq<Item>, i: nat, running: nat, failed: nat, ghost base: seq<Sys>)
        returns (ok: bool, runningPods: nat, failedPods: nat)
      requires Valid() && i < |items| && pc == Collecting(items, i, running, failed) && Extends(base, trace)
      modifies this, client
      ensures Valid() && Extends(base, trace)
      ensures pc == if ok then Collecting(items, i + 1, runningPods, failedPods) else Returning(LogsFailed)
      ensures runningPods == running + if Busy(items[i].phase) then 1 else 0
      ensures failedPods == failed + if items[i].phase == Failed then 1 else 0
      ensures buildPodPhase == if ok then old(buildPodPhase)[items[i].name := items[i].phase] else old(buildPodPhase)
      ensures !ok ==> Ended(items[i].phase) && Item(items[i].name, items[i].phase) !in Tracked(old(buildPodPhase))
      ensures client.log == old(client.log)
      ensures errorCount == old(errorCount)
    {
      hide Run, Extends, DistinctNames, Definition, Cluster.Valid, ShouldRun, Snapshot;
      Pause(base);
      ok, runningPods, failedPods := true, running, failed;
      var pod := items[i];
      if Busy(pod.phase) {
        runningPods := runningPods + 1;
      }
      if pod.phase == Failed {
        failedPods := failedPods + 1;
      }
      if !(pod.name in buildPodPhase && buildPodPhase[pod.name] == pod.phase) {
        if Ended(pod.phase) {
          ok := client.GetLogs(pod.name);
        }
        if ok {
          buildPodPhase := buildPodPhase[pod.name := pod.phase];
        }
      }
      pc := if ok then Collecting(items, i + 1, runningPods, failedPods) else Returning(LogsFailed);
      Record(ActObserve, base);
    }

    /** No listed pod is pending or running: stop, complain about missing pods, or start the next group. */
    method ContinueBuild(items: seq<Item>, failedPods: nat, ghost base: seq<Sys>)
        returns (result: Option<BuildError>)
      requires Valid() && pc == Collecting(items, |items|, 0, failedPods) && Extends(base, trace)
      modifies this, client
      ensures Valid() && Extends(base, trace)
      ensures pc == (if result.Some? then Returning(result.value) else Idle)
      ensures result == (if failedPods != 0 then None
                         else if ShouldRun(old(buildPodPhase)) then Some(PodsNotFound)
                         else if result.Some? then Some(CreateFailed) else None)
      ensures failedPods != 0 || ShouldRun(old(buildPodPhase)) ==> buildPodPhase == old(buildPodPhase) && client.log == old(client.log)
      ensures canceled == (old(canceled) || failedPods != 0 || (result == None && buildPodPhase == old(buildPodPhase)))
      ensures err == if !old(canceled) && failedPods != 0 then Some(PodsFailed) else old(err)
      ensures errorCount == old(errorCount)
    {
      hide Run, Extends, DistinctNames, Definition, Cluster.Valid, Snapshot;
      if failedPods != 0 {
        Stop(Some(PodsFailed));
        pc := Idle;
        Record(ActDecide, base);
        return None;
      }
      var expectedPods := WhichPodShouldRun(buildPodPhase);
      if |expectedPods| != 0 {
        pc := Returning(PodsNotFound);
        Record(ActDecide, base);
        return Some(PodsNotFound);
      }
      pc := Starting(0, NoGroup, false);
      Record(ActDecide, base);
      var podsStarted;
      podsStarted, result := StartNextBuildPods(base);
      if result == None {
        if !podsStarted {
          Stop(None);
        }
        pc := Idle;
        Record(ActFinish, base);
      }
    }

    /** The tracked pods believed to be pending or running, in the map's arbitrary order. */
    static method WhichPodShouldRun(phases: map<PodName, Phase>) returns (pods: seq<PodName>)
      ensures forall n :: n in pods <==> n in phases && Busy(phases[n])
      ensures |pods| != 0 <==> ShouldRun(phases)
    {
      pods := [];
      var todo := phases.Keys;
      while todo != {}
        invariant todo <= phases.Keys
        invariant forall n :: n in pods <==> n in phases && n !in todo && Busy(phases[n])
        decreases |todo|
      {
        var n :| n in todo;
        if Busy(phases[n]) {
          pods := pods + [n];
        }
        todo := todo - {n};
      }
      if pods != [] {
        assert pods[0] in pods;
      }
    }

    method StartNextBuildPods(ghost base: seq<Sys>) returns (podsCreated: bool, result: Option<BuildError>)
      requires Valid() && pc == Starting(0, NoGroup, false) && Extends(base, trace)
      modifies this, client
      ensures Valid() && Extends(base, trace)
      ensures if result.Some? then pc == Returning(result.value) else LoopOver(Current()) && pc.created == podsCreated
      ensures result in {None, Some(CreateFailed)}
      ensures buildPodPhase.Keys >= old(buildPodPhase).Keys && (podsCreated <==> buildPodPhase.Keys != old(buildPodPhase).Keys)
      ensures !podsCreated ==> buildPodPhase == old(buildPodPhase)
      ensures canceled == old(canceled) && err == old(err) && errorCount == old(errorCount)
    {
      hide Run, Extends, DistinctNames, Definition, Cluster.Valid, ShouldRun, Snapshot, CreateStep;
      var buildGroup := NoGroup;
      podsCreated := false;
      result := None;
      var i := 0;
      while i < |buildPods|
        invariant i <= |buildPods| && buildPods == old(buildPods)
        invariant Valid() && Extends(base, trace)
        invariant pc == Starting(i, buildGroup, podsCreated)
        invariant buildPodPhase.Keys >= old(buildPodPhase).Keys && (podsCreated <==> buildPodPhase.Keys != old(buildPodPhase).Keys)
        invariant !podsCreated ==> buildPodPhase == old(buildPodPhase)
        invariant canceled == old(canceled) && err == old(err) && errorCount == old(errorCount)
      {
        var pod := buildPods[i];
        if pod.name in buildPodPhase {
          pc := Starting(i + 1, buildGroup, podsCreated);
          Record(ActSkip, base);
          i := i + 1;
          continue;
        }
        if buildGroup != NoGroup && buildGroup != pod.group {
          break;
        }
        var ok := CreatePod(i, buildGroup, podsCreated, base);
        if !ok {
          return podsCreated, Some(CreateFailed);
        }
        buildGroup := pod.group;
        podsCreated := true;
        i := i + 1;
      }
    }

    /** Creates the build pod at index i and tracks it. */
    method CreatePod(i: nat, buildGroup: Group, podsCreated: bool, ghost base: seq<Sys>) returns (ok: bool)
      requires Valid() && pc == Starting(i, buildGroup, podsCreated) && Extends(base, trace)
      requires i < |buildPods| && buildPods[i].name !in buildPodPhase
      requires buildGroup == NoGroup || buildGroup == buildPods[i].group
      modifies this`buildPodPhase, this`pc, this`trace, client
      ensures Valid() && Extends(base, trace)
      ensures pc == if ok then Starting(i + 1, buildPods[i].group, true) else Returning(CreateFailed)
      ensures buildPodPhase == if ok then old(buildPodPhase)[buildPods[i].name := Pending] else old(buildPodPhase)
      ensures client.log == old(client.log) + [buildPods[i].name] || (!ok && client.log == old(client.log))
    {
      hide Run, Extends, DistinctNames, Definition, Cluster.Valid, ShouldRun, Snapshot;
      Pause(base);
      var name := buildPods[i].name;
      ok := client.Create(name);
      if ok {
        buildPodPhase := buildPodPhase[name := Pending];
      }
      pc := if ok then Starting(i + 1, buildPods[i].group, true) else Returning(CreateFailed);
      Record(ActStart, base);
    }
  }
}
