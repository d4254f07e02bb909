/**
 Safety of the image-builder controller over whole runs: one inductive invariant that relates the
 defined pods, the tracked phases, the cached view and the real cluster, and what follows from it.
 */
module BuildSafety {
  import opened Wrappers
  import opened BuildMachine

  ghost predicate Listed(items: seq<Item>, name: PodName) {
    exists i :: 0 <= i < |items| && items[i].name == name
  }

  ghost predicate AllSucceeded(s: Sys) {
    && |s.pods| > 0
    && forall i :: 0 <= i < |s.pods| ==>
         s.pods[i].name in s.cluster.actual && s.cluster.actual[s.pods[i].name] == Succeeded
  }

  ghost predicate SomeFailed(s: Sys) {
    exists n :: n in s.cluster.actual && s.cluster.actual[n] == Failed
  }

  /** The position of a pod name in the definition; |pods| when it is not defined. */
  ghost function Pos(pods: seq<BuildPod>, name: PodName): (i: nat)
    ensures i <= |pods|
    ensures i < |pods| ==> pods[i].name == name
  {
    if pods == [] then 0
    else if pods[0].name == name then 0
    else 1 + Pos(pods[1..], name)
  }

  lemma {:induction false} PosAt(pods: seq<BuildPod>, i: nat)
    requires forall j, k :: 0 <= j < k < |pods| ==> pods[j].name != pods[k].name
    requires i < |pods|
    ensures Pos(pods, pods[i].name) == i
  {
    if i == 0 {
    } else {
      PosAt(pods[1..], i - 1);
    }
  }

  /** The tracked names are a prefix of the definition. */
  ghost predicate TrackedPrefix(s: Sys) {
    && |s.phase| <= |s.pods|
    && forall n :: n in s.phase <==> Pos(s.pods, n) < |s.phase|
  }

  /** The pods that exist were created in definition order, once each, at most one of them untracked. */
  ghost predicate CreatedPrefix(s: Sys) {
    && |s.phase| <= |s.cluster.log| <= |s.phase| + 1
    && |s.cluster.log| <= |s.pods|
    && (forall i :: 0 <= i < |s.cluster.log| ==> s.cluster.log[i] == s.pods[i].name)
    && forall n :: n in s.cluster.actual <==> Pos(s.pods, n) < |s.cluster.log|
  }

  /** What the controller and its cache believe is in the past of what is true. */
  ghost predicate Stale(s: Sys) {
    && (forall n :: n in s.cluster.actual ==> s.cluster.actual[n] != Unknown)
    && (forall n :: n in s.cluster.cached ==>
          n in s.cluster.actual && Leads(s.cluster.cached[n], s.cluster.actual[n]))
    && (forall n :: n in s.phase ==>
          || s.phase[n] == Pending
          || (n in s.cluster.cached && Leads(s.phase[n], s.cluster.cached[n])))
  }

  ghost predicate Barrier(s: Sys) {
    forall j, k :: 0 <= j < k < |s.cluster.log| && k < |s.pods| && Boundary(s.pods, j, k) ==>
                     s.pods[j].name in s.cluster.actual && s.cluster.actual[s.pods[j].name] == Succeeded
  }

  ghost predicate VerdictSound(s: Sys) {
    && (s.errors > MAX_ERRORS ==> s.canceled)
    && (!s.canceled ==> s.err == None)
    && (s.canceled && s.err == None ==> AllSucceeded(s))
    && (s.err == Some(PodsFailed) ==> SomeFailed(s))
    && (s.err.Some? && s.err != Some(PodsFailed) ==> s.errors > MAX_ERRORS)
  }

  ghost predicate CollectingInv(s: Sys)
    requires s.pc.Collecting?
  {
    var items, next := s.pc.items, s.pc.next;
    && next <= |items|
    && (forall i, j :: 0 <= i < j < |items| ==> items[i].name != items[j].name)
    && (forall i :: 0 <= i < |items| ==>
          items[i].name in s.cluster.cached && Leads(items[i].phase, s.cluster.cached[items[i].name]))
    && (forall n :: n in s.phase ==> Listed(items, n) || s.phase[n] == Pending)
    && (forall i :: 0 <= i < next ==> items[i].name in s.phase && s.phase[items[i].name] == items[i].phase)
    && (forall i :: next <= i < |items| && items[i].name in s.phase ==> Leads(s.phase[items[i].name], items[i].phase))
    && (s.pc.running == 0 <==> forall i :: 0 <= i < next ==> !Busy(items[i].phase))
    && (s.pc.failed == 0 <==> forall i :: 0 <= i < next ==> items[i].phase != Failed)
  }

  /** Every pod tracked before the current build group has really succeeded. */
  ghost predicate StartingInv(s: Sys)
    requires s.pc.Starting? && |s.phase| <= |s.pods|
  {
    && s.pc.created == (s.pc.group != NoGroup)
    && (if s.pc.created then s.pc.index == |s.phase| > 0 else s.pc.index <= |s.phase|)
    && forall j :: 0 <= j < |s.phase| ==>
         || (s.pods[j].name in s.cluster.actual && s.cluster.actual[s.pods[j].name] == Succeeded)
         || (s.pc.created && forall m :: j <= m < |s.phase| ==> s.pods[m].group == s.pc.group)
  }

  ghost predicate PcInv(s: Sys)
    requires |s.phase| <= |s.pods|
  {
    match s.pc
    case Listing => s.pods != []
    case Collecting(_, _, _, _) => s.pods != [] && CollectingInv(s)
    case Starting(_, _, _) => s.pods != [] && StartingInv(s)
    case Returning(e) => e != PodsFailed
    case _ => true
  }

  ghost predicate Inv(s: Sys) {
    && (s.pods == [] || WellFormed(s.pods))
    && TrackedPrefix(s)
    && CreatedPrefix(s)
    && Stale(s)
    && Barrier(s)
    && VerdictSound(s)
    && PcInv(s)
  }

  lemma EnvironmentKeepsPrefix(s: Sys, s': Sys)
    requires TrackedPrefix(s) && CreatedPrefix(s) && Environment(s, s')
    ensures TrackedPrefix(s') && CreatedPrefix(s')
  {
  }

  lemma EnvironmentKeepsStale(s: Sys, s': Sys)
    requires Stale(s) && Environment(s, s')
    ensures Stale(s')
  {
  }

  lemma EnvironmentKeepsBarrier(s: Sys, s': Sys)
    requires Barrier(s) && Environment(s, s')
    ensures Barrier(s')
  {
  }

  lemma EnvironmentKeepsVerdict(s: Sys, s': Sys)
    requires VerdictSound(s) && Environment(s, s')
    ensures VerdictSound(s')
  {
  }

  lemma EnvironmentKeepsPc(s: Sys, s': Sys)
    requires |s.phase| <= |s.pods| && PcInv(s) && Environment(s, s')
    ensures PcInv(s')
  {
  }

  lemma EnvironmentKeepsInv(s: Sys, s': Sys)
    requires Inv(s) && Environment(s, s')
    ensures Inv(s')
  {
    EnvironmentKeepsPrefix(s, s');
    EnvironmentKeepsStale(s, s');
    EnvironmentKeepsBarrier(s, s');
    EnvironmentKeepsVerdict(s, s');
    EnvironmentKeepsPc(s, s');
  }

  /** Tracking a pod that exists keeps the tracked names a prefix. */
  lemma TrackKeepsPrefix(s: Sys, s': Sys, n: PodName, p: Phase)
    requires TrackedPrefix(s) && CreatedPrefix(s)
    requires n in s.cluster.actual
    requires s'.pods == s.pods && s'.cluster == s.cluster && s'.phase == s.phase[n := p]
    ensures TrackedPrefix(s') && CreatedPrefix(s')
  {
    hide Pos;
    var k := Pos(s.pods, n);
    if n in s.phase {
      assert s'.phase.Keys == s.phase.Keys;
      assert |s'.phase.Keys| == |s'.phase| && |s.phase.Keys| == |s.phase|;
    } else {
      assert k == |s.phase| && |s'.phase| == k + 1;
    }
    forall x
      ensures x in s'.phase <==> Pos(s.pods, x) < |s'.phase|
    {
      assert x in s.phase <==> Pos(s.pods, x) < |s.phase|;
      assert x == n <==> Pos(s.pods, x) == k;
    }
  }

  lemma ObserveKeepsStale(s: Sys, s': Sys)
    requires Stale(s) && s.pc.Collecting? && CollectingInv(s) && Observe(s, s')
    ensures Stale(s')
  {
  }

  lemma ObserveKeepsCollecting(s: Sys, s': Sys)
    requires s.pc.Collecting? && CollectingInv(s) && Observe(s, s') && s'.pc.Collecting?
    ensures CollectingInv(s')
  {
    hide Listed;
    var items, next := s.pc.items, s.pc.next;
    var it := items[next];
    assert s'.phase == s.phase[it.name := it.phase];
    forall n | n in s'.phase
      ensures Listed(items, n) || s'.phase[n] == Pending
    {
      if n == it.name {
        IsListed(items, next);
      }
    }
    forall i | 0 <= i < |items| && i != next
      ensures items[i].name != it.name
    {
    }
    var p := it.phase;
    assert s'.pc.running == 0 <==> s.pc.running == 0 && !Busy(p);
    assert s'.pc.failed == 0 <==> s.pc.failed == 0 && p != Failed;
  }

  lemma IsListed(items: seq<Item>, i: nat)
    requires i < |items|
    ensures Listed(items, items[i].name)
  {
  }

  lemma ObserveKeepsPrefix(s: Sys, s': Sys)
    requires TrackedPrefix(s) && CreatedPrefix(s) && Stale(s) && s.pc.Collecting? && CollectingInv(s)
    requires Observe(s, s')
    ensures TrackedPrefix(s') && CreatedPrefix(s')
  {
    var it := s.pc.items[s.pc.next];
    if s'.phase != s.phase {
      TrackKeepsPrefix(s, s', it.name, it.phase);
    }
  }

  lemma ObserveKeepsInv(s: Sys, s': Sys)
    requires Inv(s) && Observe(s, s')
    ensures Inv(s')
  {
    ObserveKeepsPrefix(s, s');
    ObserveKeepsStale(s, s');
    if s'.pc.Collecting? {
      ObserveKeepsCollecting(s, s');
    }
  }

  /** When no listed pod runs or failed and none is missing, everything tracked has succeeded. */
  lemma TrackedHaveSucceeded(s: Sys, n: PodName)
    requires Stale(s) && s.pc.Collecting? && CollectingInv(s) && s.pc.next == |s.pc.items|
    requires s.pc.running == 0 && s.pc.failed == 0 && !ShouldRun(s.phase)
    requires n in s.phase
    ensures n in s.cluster.actual && s.cluster.actual[n] == Succeeded
  {
    assert !Busy(s.phase[n]);
    assert Listed(s.pc.items, n);
    var i :| 0 <= i < |s.pc.items| && s.pc.items[i].name == n;
    assert s.pc.items[i].phase == s.phase[n];
    assert Leads(s.phase[n], s.cluster.cached[n]) && Leads(s.cluster.cached[n], s.cluster.actual[n]);
  }

  /** A failure among the listed pods is a real failure. */
  lemma ListedFailureIsReal(s: Sys)
    requires Stale(s) && s.pc.Collecting? && CollectingInv(s) && s.pc.next == |s.pc.items|
    requires s.pc.failed != 0
    ensures SomeFailed(s)
  {
    var i :| 0 <= i < |s.pc.items| && s.pc.items[i].phase == Failed;
    var n := s.pc.items[i].name;
    assert n in s.cluster.actual && s.cluster.actual[n] == Failed;
  }

  /** Deciding to stop because of failed pods is a sound verdict. */
  lemma StopKeepsVerdict(s: Sys, s': Sys, e: Option<BuildError>)
    requires VerdictSound(s) && s' == Stopped(s, e).(pc := s'.pc)
    requires e.Some? ==> e == Some(PodsFailed) && SomeFailed(s)
    requires e == None ==> AllSucceeded(s)
    ensures VerdictSound(s')
  {
  }

  /** When the start loop begins, every tracked pod has succeeded. */
  lemma AllTrackedHaveSucceeded(s: Sys, j: nat)
    requires WellFormed(s.pods) && TrackedPrefix(s) && Stale(s) && s.pc.Collecting? && CollectingInv(s) && s.pc.next == |s.pc.items|
    requires s.pc.running == 0 && s.pc.failed == 0 && !ShouldRun(s.phase)
    requires j < |s.phase|
    ensures s.pods[j].name in s.cluster.actual && s.cluster.actual[s.pods[j].name] == Succeeded
  {
    hide Stale, CollectingInv, ShouldRun;
    PosAt(s.pods, j);
    TrackedHaveSucceeded(s, s.pods[j].name);
  }

  lemma DecideStarts(s: Sys, s': Sys)
    requires s.pods != [] && WellFormed(s.pods) && TrackedPrefix(s) && Stale(s) && s.pc.Collecting? && CollectingInv(s)
    requires Decide(s, s') && s'.pc.Starting?
    ensures |s'.phase| <= |s'.pods| && StartingInv(s')
  {
    hide Stale, CollectingInv, ShouldRun, WellFormed;
    forall j | 0 <= j < |s.phase|
      ensures s.pods[j].name in s.cluster.actual && s.cluster.actual[s.pods[j].name] == Succeeded
    {
      AllTrackedHaveSucceeded(s, j);
    }
  }

  lemma DecideKeepsVerdict(s: Sys, s': Sys)
    requires VerdictSound(s) && Stale(s) && s.pc.Collecting? && CollectingInv(s) && Decide(s, s')
    ensures VerdictSound(s')
  {
    hide Stale, CollectingInv, VerdictSound, ShouldRun, SomeFailed;
    if s.pc.running == 0 && s.pc.failed != 0 {
      ListedFailureIsReal(s);
      StopKeepsVerdict(s, s', Some(PodsFailed));
    } else {
      VerdictStays(s, s');
    }
  }

  lemma DecideKeepsInv(s: Sys, s': Sys)
    requires Inv(s) && Decide(s, s')
    ensures Inv(s')
  {
    hide CreatedPrefix, Barrier, Stale, CollectingInv, StartingInv, VerdictSound, ShouldRun, WellFormed;
    ClusterStays(s, s');
    DecideKeepsVerdict(s, s');
    if s'.pc.Starting? {
      DecideStarts(s, s');
    }
  }

  /** The pod at the start loop's index is the first untracked one. */
  lemma StartsNext(s: Sys)
    requires WellFormed(s.pods) && TrackedPrefix(s) && s.pc.Starting? && StartingInv(s)
    requires s.pc.index < |s.pods| && s.pods[s.pc.index].name !in s.phase
    ensures s.pc.index == |s.phase|
  {
    PosAt(s.pods, s.pc.index);
  }

  /** A skipped pod lies inside the tracked prefix. */
  lemma SkipsTracked(s: Sys)
    requires WellFormed(s.pods) && TrackedPrefix(s) && s.pc.Starting? && StartingInv(s)
    requires s.pc.index < |s.pods| && s.pods[s.pc.index].name in s.phase
    ensures s.pc.index < |s.phase| && !s.pc.created
  {
    PosAt(s.pods, s.pc.index);
  }

  lemma NextIsNew(s: Sys)
    requires TrackedPrefix(s) && CreatedPrefix(s)
    requires |s.phase| < |s.pods| && s.pods[|s.phase|].name !in s.cluster.actual
    requires Pos(s.pods, s.pods[|s.phase|].name) == |s.phase|
    ensures |s.phase| == |s.cluster.log|
  {
    hide Pos;
  }

  lemma CreateKeepsPrefix(s: Sys, s': Sys)
    requires TrackedPrefix(s) && CreatedPrefix(s)
    requires |s.phase| < |s.pods| && s.pods[|s.phase|].name !in s.cluster.actual
    requires Pos(s.pods, s.pods[|s.phase|].name) == |s.phase|
    requires s'.pods == s.pods && s'.phase == s.phase
    requires s'.cluster == Created(s.cluster, s.pods[|s.phase|].name)
    ensures |s.phase| == |s.cluster.log|
    ensures TrackedPrefix(s') && CreatedPrefix(s')
  {
    hide Pos;
    NextIsNew(s);
    var k := |s.phase|;
    var n := s.pods[k].name;
    assert TrackedPrefix(s');
    assert s'.cluster.log == s.cluster.log + [n];
    hide TrackedPrefix;
    forall x
      ensures x in s'.cluster.actual <==> Pos(s.pods, x) < |s'.cluster.log|
    {
      assert x in s.cluster.actual <==> Pos(s.pods, x) < k;
      assert x == n <==> Pos(s.pods, x) == k;
    }
  }

  lemma CreateKeepsStale(s: Sys, s': Sys, n: PodName)
    requires Stale(s) && n !in s.cluster.actual
    requires s'.phase == s.phase && s'.cluster == Created(s.cluster, n)
    ensures Stale(s')
  {
  }

  /** The group barrier at the moment a pod is created. */
  lemma BarrierForNext(s: Sys, j: nat)
    requires s.pc.Starting? && |s.phase| < |s.pods| && StartingInv(s) && s.pc.index == |s.phase| && !LoopOver(s)
    requires s.pods[s.pc.index].name !in s.phase
    requires j < s.pc.index && Boundary(s.pods, j, s.pc.index)
    ensures s.pods[j].name in s.cluster.actual && s.cluster.actual[s.pods[j].name] == Succeeded
  {
    var k := s.pc.index;
    var m :| j < m <= k && s.pods[m - 1].group != s.pods[m].group;
    assert s.pc.created ==> s.pods[k].group == s.pc.group;
    assert j <= m - 1 < |s.phase|;
  }

  lemma CreateKeepsBarrier(s: Sys, s': Sys)
    requires Barrier(s) && |s.phase| == |s.cluster.log| < |s.pods|
    requires s.pc.Starting? && StartingInv(s) && s.pc.index == |s.phase| && !LoopOver(s)
    requires s.pods[s.pc.index].name !in s.phase
    requires s'.pods == s.pods && s'.cluster == Created(s.cluster, s.pods[s.pc.index].name)
    requires s.pods[s.pc.index].name !in s.cluster.actual
    ensures Barrier(s')
  {
    forall j, k | 0 <= j < k < |s'.cluster.log| && k < |s.pods| && Boundary(s.pods, j, k)
      ensures s.pods[j].name in s.cluster.actual && s.cluster.actual[s.pods[j].name] == Succeeded
    {
      if k == s.pc.index {
        BarrierForNext(s, j);
      }
    }
  }

  lemma CreateKeepsVerdict(s: Sys, s': Sys, n: PodName)
    requires VerdictSound(s) && n !in s.cluster.actual
    requires s' == s.(phase := s'.phase, pc := s'.pc, cluster := Created(s.cluster, n))
    ensures VerdictSound(s')
  {
    if SomeFailed(s) {
      var f :| f in s.cluster.actual && s.cluster.actual[f] == Failed;
      assert s'.cluster.actual[f] == Failed;
    }
  }

  lemma StartPodKeepsStarting(s: Sys, s': Sys)
    requires |s.phase| < |s.pods| && s.pc.Starting? && StartingInv(s) && s.pc.index == |s.phase|
    requires !LoopOver(s) && s.pods[s.pc.index].name !in s.phase && s.pods[s.pc.index].group != NoGroup
    requires s'.pods == s.pods && |s'.phase| == |s.phase| + 1
    requires s'.pc == Starting(s.pc.index + 1, s.pods[s.pc.index].group, true)
    requires s'.cluster == Created(s.cluster, s.pods[s.pc.index].name) && s.pods[s.pc.index].name !in s.cluster.actual
    ensures StartingInv(s')
  {
    var k := s.pc.index;
    forall j | 0 <= j < k + 1
      ensures
        || (s.pods[j].name in s'.cluster.actual && s'.cluster.actual[s.pods[j].name] == Succeeded)
        || forall m :: j <= m < k + 1 ==> s.pods[m].group == s.pods[k].group
    {
      if j < k && !(s.pods[j].name in s.cluster.actual && s.cluster.actual[s.pods[j].name] == Succeeded) {
        assert s.pc.created && s.pc.group == s.pods[k].group;
      }
    }
  }

  /** The pod comes into existence and the cluster part of the invariant survives. */
  lemma CreateKeepsCluster(s: Sys, mid: Sys)
    requires Inv(s) && s.pc.Starting? && s.pc.index < |s.pods| && !LoopOver(s)
    requires s.pods[s.pc.index].name !in s.phase && s.pods[s.pc.index].name !in s.cluster.actual
    requires mid == s.(cluster := Created(s.cluster, s.pods[s.pc.index].name))
    ensures s.pc.index == |s.phase|
    ensures TrackedPrefix(mid) && CreatedPrefix(mid) && Stale(mid) && Barrier(mid) && VerdictSound(mid)
  {
    var n := s.pods[s.pc.index].name;
    StartsNext(s);
    PosAt(s.pods, s.pc.index);
    CreateKeepsPrefix(s, mid);
    CreateKeepsStale(s, mid, n);
    CreateKeepsBarrier(s, mid);
    CreateKeepsVerdict(s, mid, n);
  }

  /** The parts of the invariant about pods, phases and the cluster do not look at the other fields. */
  lemma ClusterStays(s: Sys, s': Sys)
    requires TrackedPrefix(s) && CreatedPrefix(s) && Stale(s) && Barrier(s)
    requires s'.pods == s.pods && s'.phase == s.phase && s'.cluster == s.cluster
    ensures TrackedPrefix(s') && CreatedPrefix(s') && Stale(s') && Barrier(s')
  {
  }

  lemma VerdictStays(s: Sys, s': Sys)
    requires VerdictSound(s) && s' == s.(pc := s'.pc)
    ensures VerdictSound(s')
  {
  }

  lemma StartPodFails(s: Sys, s': Sys)
    requires Inv(s) && StartPod(s, s') && s'.pc.Returning?
    ensures Inv(s')
  {
    hide CreatedPrefix, Stale, Barrier, VerdictSound, StartingInv;
    var mid := s.(cluster := s'.cluster);
    if s'.cluster != s.cluster {
      CreateKeepsCluster(s, mid);
    } else {
      assert mid == s;
    }
    ClusterStays(mid, s');
    VerdictStays(mid, s');
  }

  lemma StartPodSucceeds(s: Sys, s': Sys)
    requires Inv(s) && StartPod(s, s') && s'.pc.Starting?
    ensures Inv(s')
  {
    var mid := s.(cluster := s'.cluster);
    CreateKeepsCluster(s, mid);
    TrackCreated(mid, s', s.pods[s.pc.index].name);
    StartPodKeepsStarting(s, s');
  }

  lemma StartPodKeepsInv(s: Sys, s': Sys)
    requires Inv(s) && StartPod(s, s')
    ensures Inv(s')
  {
    if s'.pc.Returning? {
      StartPodFails(s, s');
    } else {
      StartPodSucceeds(s, s');
    }
  }

  lemma TrackCreated(mid: Sys, s': Sys, n: PodName)
    requires TrackedPrefix(mid) && CreatedPrefix(mid) && Stale(mid) && Barrier(mid) && VerdictSound(mid)
    requires n in mid.cluster.actual && n !in mid.phase
    requires s' == mid.(phase := mid.phase[n := Pending], pc := s'.pc)
    ensures TrackedPrefix(s') && CreatedPrefix(s') && Stale(s') && Barrier(s') && VerdictSound(s')
    ensures |s'.phase| == |mid.phase| + 1
  {
    hide TrackedPrefix, CreatedPrefix;
    TrackKeepsPrefix(mid, s', n, Pending);
  }

  /** Nothing was left to start: everything has succeeded. */
  lemma NothingLeft(s: Sys)
    requires s.pods != [] && (forall i, j :: 0 <= i < j < |s.pods| ==> s.pods[i].name != s.pods[j].name)
    requires TrackedPrefix(s) && StartingInvAt(s) && LoopOver(s) && !s.pc.created
    ensures AllSucceeded(s)
  {
  }

  ghost predicate StartingInvAt(s: Sys) {
    s.pc.Starting? && |s.phase| <= |s.pods| && StartingInv(s)
  }

  lemma FinishStartKeepsInv(s: Sys, s': Sys)
    requires Inv(s) && FinishStart(s, s')
    ensures Inv(s')
  {
    ClusterStays(s, s');
    hide CreatedPrefix, Barrier, Stale, StartingInv, VerdictSound, LoopOver;
    if s.pc.created {
      VerdictStays(s, s');
    } else {
      NothingLeft(s);
      StopKeepsVerdict(s, s', None);
    }
  }

  lemma SkipPodKeepsInv(s: Sys, s': Sys)
    requires Inv(s) && SkipPod(s, s')
    ensures Inv(s')
  {
    hide CreatedPrefix, Barrier, VerdictSound;
    ClusterStays(s, s');
    VerdictStays(s, s');
    SkipsTracked(s);
  }

  lemma ListPodsKeepsInv(s: Sys, s': Sys)
    requires Inv(s) && ListPods(s, s')
    ensures Inv(s')
  {
    hide CreatedPrefix, Barrier, VerdictSound;
    ClusterStays(s, s');
    VerdictStays(s, s');
    if s'.pc.Collecting? {
      ListPodsStartsCollecting(s, s');
    }
  }

  lemma ListPodsStartsCollecting(s: Sys, s': Sys)
    requires Stale(s) && ListPods(s, s') && s'.pc.Collecting?
    ensures CollectingInv(s')
  {
    hide Listed;
    var items := s'.pc.items;
    forall n | n in s.phase
      ensures Listed(items, n) || s.phase[n] == Pending
    {
      if n in s.cluster.cached {
        var it := Item(n, s.cluster.cached[n]);
        assert it in items;
        var i :| 0 <= i < |items| && items[i] == it;
        IsListed(items, i);
      }
    }
  }

  lemma HandleErrorKeepsInv(s: Sys, s': Sys)
    requires Inv(s) && HandleError(s, s')
    ensures Inv(s')
  {
    hide CreatedPrefix, Barrier, Stale;
    ClusterStays(s, s');
    if s.canceled && s.err == None {
      assert AllSucceeded(s');
    }
  }

  lemma OpeningKeepsInv(s: Sys, s': Sys)
    requires Inv(s) && (Begin(s, s') || GetPod(s, s') || Define(s, s'))
    ensures Inv(s')
  {
    if s'.pods == s.pods {
      ClusterStays(s, s');
    } else {
      assert s.phase == map[] && s.cluster.actual == map[] && s.cluster.log == [];
    }
  }

  lemma StepKeepsInv(s: Sys, s': Sys)
    requires Inv(s) && Step(s, s')
    ensures Inv(s')
  {
    var a :| Does(a, s, s');
    match a
    case ActEnvironment => EnvironmentKeepsInv(s, s');
    case ActBegin => OpeningKeepsInv(s, s');
    case ActGet => OpeningKeepsInv(s, s');
    case ActDefine => OpeningKeepsInv(s, s');
    case ActList => ListPodsKeepsInv(s, s');
    case ActObserve => ObserveKeepsInv(s, s');
    case ActDecide => DecideKeepsInv(s, s');
    case ActSkip => SkipPodKeepsInv(s, s');
    case ActStart => StartPodKeepsInv(s, s');
    case ActFinish => FinishStartKeepsInv(s, s');
    case ActHandle => HandleErrorKeepsInv(s, s');
  }

  lemma {:induction false} RunKeepsInv(tr: seq<Sys>, i: nat)
    requires Run(tr) && i < |tr|
    ensures Inv(tr[i])
  {
    if i == 0 {
    } else {
      RunKeepsInv(tr, i - 1);
      assert Follows(tr, i - 1);
      StepKeepsInv(tr[i - 1], tr[i]);
    }
  }
}
