/**
 The image-builder controller as a state machine: one atomic step per access of the reconcile
 loop to the cluster, with arbitrary cluster activity between any two of them.

 `Sys` joins the fields of the reconciler, the point its single worker has reached, and the
 cluster.  The controller never sees `actual`; it sees `cached`, which lags behind.
 */
module BuildMachine {
  import opened Wrappers

  /** Pod phases. Kubernetes can also report `Unknown`; see `EnvStep`. */
  datatype Phase = Pending | Running | Succeeded | Failed | Unknown

  datatype PodName = PodName(namespace: string, name: string)

  /** Build groups; `NoGroup` stands for the empty string a start loop begins with. */
  datatype Group = NoGroup | Clonerefs | CreateCache(variant: Option<string>) | ParallelBuild

  /** A defined build pod: its namespaced name and its build group. */
  datatype BuildPod = BuildPod(name: PodName, group: Group)

  /** One entry of a pod list returned by the cache. */
  datatype Item = Item(name: PodName, phase: Phase)

  datatype BuildError =
    | GetFailed | DefineFailed | ListFailed | LogsFailed | PodsNotFound | CreateFailed | PodsFailed

  /** The real pods, the informer's view of them, and the order in which pods came into existence. */
  datatype ClusterState = ClusterState(
    actual: map<PodName, Phase>,
    cached: map<PodName, Phase>,
    log: seq<PodName>)

  /** Where the reconcile worker stands. */
  datatype Pc =
    | Idle
    | Getting
    | Defining
    | Listing
    | Collecting(items: seq<Item>, next: nat, running: nat, failed: nat)
    | Starting(index: nat, group: Group, created: bool)
    | Returning(error: BuildError)

  datatype Sys = Sys(
    pods: seq<BuildPod>,
    phase: map<PodName, Phase>,
    errors: nat,
    canceled: bool,
    err: Option<BuildError>,
    pc: Pc,
    cluster: ClusterState)

  const MAX_ERRORS := 5

  predicate Busy(p: Phase) {
    p == Pending || p == Running
  }

  predicate Ended(p: Phase) {
    p == Succeeded || p == Failed
  }

  /** A pod that had phase p can later have phase q. */
  predicate Leads(p: Phase, q: Phase) {
    p == q || (p == Pending && q != Unknown) || (p == Running && Ended(q))
  }

  ghost predicate WellFormed(pods: seq<BuildPod>) {
    && |pods| > 0
    && (forall i, j :: 0 <= i < j < |pods| ==> pods[i].name != pods[j].name)
    && (forall i :: 0 <= i < |pods| ==> pods[i].group != NoGroup)
  }

  /** A new build group begins somewhere after pod j and not later than pod k. */
  ghost predicate Boundary(pods: seq<BuildPod>, j: int, k: int)
    requires 0 <= j < |pods| && 0 <= k < |pods|
  {
    exists m :: j < m <= k && pods[m - 1].group != pods[m].group
  }

  /** A list result enumerates the cached view in some order. */
  ghost predicate Snapshot(items: seq<Item>, cached: map<PodName, Phase>) {
    && (forall i, j :: 0 <= i < j < |items| ==> items[i].name != items[j].name)
    && (forall i :: 0 <= i < |items| ==> items[i].name in cached && cached[items[i].name] == items[i].phase)
    && (forall n :: n in cached ==> Item(n, cached[n]) in items)
  }

  /**
   Any amount of cluster activity: phases move forward, the cache catches up with some past or
   present phase of each pod.  Assumed: nothing else creates pods, pods are never deleted, no pod
   becomes `Unknown`, the cache never goes backwards.
   */
  predicate EnvStep(c: ClusterState, c': ClusterState) {
    && c'.log == c.log
    && c'.actual.Keys == c.actual.Keys
    && c.cached.Keys <= c'.cached.Keys <= c'.actual.Keys
    && (forall n :: n in c.actual ==> Leads(c.actual[n], c'.actual[n]))
    && (forall n :: n in c.cached ==> Leads(c.cached[n], c'.cached[n]))
    && (forall n :: n in c'.cached ==> Leads(c'.cached[n], c'.actual[n]))
  }

  /** The API server accepts a new pod. */
  function Created(c: ClusterState, name: PodName): ClusterState {
    c.(actual := c.actual[name := Pending], log := c.log + [name])
  }

  /** Create can succeed, be refused, or report an error although the pod was created. */
  ghost predicate CreateStep(c: ClusterState, name: PodName, ok: bool, c': ClusterState) {
    if ok then name !in c.actual && c' == Created(c, name)
    else c' == c || (name !in c.actual && c' == Created(c, name))
  }

  function Stopped(s: Sys, e: Option<BuildError>): Sys {
    if s.canceled then s
    else s.(canceled := true, err := if e.Some? then e else s.err)
  }

  ghost predicate Environment(s: Sys, s': Sys) {
    EnvStep(s.cluster, s'.cluster) && s' == s.(cluster := s'.cluster)
  }

  ghost predicate Begin(s: Sys, s': Sys) {
    s.pc.Idle? && s' == s.(pc := Getting)
  }

  ghost predicate GetPod(s: Sys, s': Sys) {
    s.pc.Getting? && (s' == s.(pc := Defining) || s' == s.(pc := Returning(GetFailed)))
  }

  ghost predicate Define(s: Sys, s': Sys) {
    && s.pc.Defining?
    && if s.pods != [] then s' == s.(pc := Listing)
       else s' == s.(pc := Returning(DefineFailed)) || (WellFormed(s'.pods) && s' == s.(pods := s'.pods, pc := Listing))
  }

  ghost predicate ListPods(s: Sys, s': Sys) {
    && s.pc.Listing?
    && (|| s' == s.(pc := Returning(ListFailed))
        || (s'.pc.Collecting? && Snapshot(s'.pc.items, s.cluster.cached) && s' == s.(pc := Collecting(s'.pc.items, 0, 0, 0))))
  }

  /** The pc after looking at the next listed pod. */
  function Counted(pc: Pc): Pc
    requires pc.Collecting? && pc.next < |pc.items|
  {
    var p := pc.items[pc.next].phase;
    pc.(next := pc.next + 1,
        running := pc.running + (if Busy(p) then 1 else 0),
        failed := pc.failed + (if p == Failed then 1 else 0))
  }

  ghost predicate Observe(s: Sys, s': Sys) {
    && s.pc.Collecting? && s.pc.next < |s.pc.items|
    && var it := s.pc.items[s.pc.next];
       if it.name in s.phase && s.phase[it.name] == it.phase then s' == s.(pc := Counted(s.pc))
       else
         || s' == s.(phase := s.phase[it.name := it.phase], pc := Counted(s.pc))
         || (Ended(it.phase) && s' == s.(pc := Returning(LogsFailed)))
  }

  /** Some tracked pod is believed to be pending or running. */
  predicate ShouldRun(phase: map<PodName, Phase>) {
    exists n :: n in phase && Busy(phase[n])
  }

  ghost predicate Decide(s: Sys, s': Sys) {
    && s.pc.Collecting? && s.pc.next == |s.pc.items|
    && if s.pc.running != 0 then s' == s.(pc := Idle)
       else if s.pc.failed != 0 then s' == Stopped(s, Some(PodsFailed)).(pc := Idle)
       else if ShouldRun(s.phase) then s' == s.(pc := Returning(PodsNotFound))
       else s' == s.(pc := Starting(0, NoGroup, false))
  }

  /** The start loop skips the pod at its index because it is tracked. */
  ghost predicate SkipPod(s: Sys, s': Sys) {
    && s.pc.Starting? && s.pc.index < |s.pods|
    && s.pods[s.pc.index].name in s.phase
    && s' == s.(pc := s.pc.(index := s.pc.index + 1))
  }

  /** The start loop is over: the list is exhausted or a new build group begins. */
  predicate LoopOver(s: Sys) {
    && s.pc.Starting?
    && (s.pc.index >= |s.pods|
        || (&& s.pods[s.pc.index].name !in s.phase
            && s.pc.group != NoGroup
            && s.pc.group != s.pods[s.pc.index].group))
  }

  ghost predicate StartPod(s: Sys, s': Sys) {
    && s.pc.Starting? && s.pc.index < |s.pods| && !LoopOver(s)
    && var p := s.pods[s.pc.index];
       && p.name !in s.phase
       && (|| (&& CreateStep(s.cluster, p.name, true, s'.cluster)
               && s' == s.(phase := s.phase[p.name := Pending],
                           pc := Starting(s.pc.index + 1, p.group, true),
                           cluster := s'.cluster))
           || (&& CreateStep(s.cluster, p.name, false, s'.cluster)
               && s' == s.(pc := Returning(CreateFailed), cluster := s'.cluster)))
  }

  ghost predicate FinishStart(s: Sys, s': Sys) {
    LoopOver(s) && s' == (if s.pc.created then s else Stopped(s, None)).(pc := Idle)
  }

  /** The deferred error handler. */
  ghost predicate HandleError(s: Sys, s': Sys) {
    && s.pc.Returning?
    && var t := s.(errors := s.errors + 1, pc := Idle);
       s' == if t.errors > MAX_ERRORS then Stopped(t, Some(s.pc.error)) else t
  }

  /** The kinds of step; `ActEnvironment` is the cluster's, all others are the controller's. */
  datatype Action =
    | ActEnvironment | ActBegin | ActGet | ActDefine | ActList | ActObserve
    | ActDecide | ActSkip | ActStart | ActFinish | ActHandle

  ghost predicate Does(a: Action, s: Sys, s': Sys) {
    match a
    case ActEnvironment => Environment(s, s')
    case ActBegin => Begin(s, s')
    case ActGet => GetPod(s, s')
    case ActDefine => Define(s, s')
    case ActList => ListPods(s, s')
    case ActObserve => Observe(s, s')
    case ActDecide => Decide(s, s')
    case ActSkip => SkipPod(s, s')
    case ActStart => StartPod(s, s')
    case ActFinish => FinishStart(s, s')
    case ActHandle => HandleError(s, s')
  }

  ghost predicate Step(s: Sys, s': Sys) {
    exists a :: Does(a, s, s')
  }

  ghost predicate Init(s: Sys) {
    s == Sys([], map[], 0, false, None, Idle, ClusterState(map[], map[], []))
  }

  ghost predicate Follows(tr: seq<Sys>, i: nat)
    requires i + 1 < |tr|
  {
    Step(tr[i], tr[i + 1])
  }

  /** A run: any finite interleaving of controller and cluster steps from the initial state. */
  ghost predicate Run(tr: seq<Sys>) {
    && |tr| > 0
    && Init(tr[0])
    && forall i :: 0 <= i < |tr| - 1 ==> Follows(tr, i)
  }

  lemma ExtendRun(tr: seq<Sys>, s: Sys)
    requires Run(tr) && Step(tr[|tr| - 1], s)
    ensures Run(tr + [s])
  {
    var tr' := tr + [s];
    forall i | 0 <= i < |tr'| - 1
      ensures Follows(tr', i)
    {
      if i < |tr| - 1 {
        assert Follows(tr, i);
      }
    }
  }
}
