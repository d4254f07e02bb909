/** Runs that show where the guarantees of the image-builder controller end. */
module BuildLimits {
  import opened Wrappers
  import opened BuildMachine
  import opened BuildTheorems
  import opened BuildController

  // ---------- Runs of a wider environment ----------

  type Extra = (Sys, Sys) -> bool

  ghost predicate WiderStep(extra: Extra, s: Sys, s': Sys) {
    Step(s, s') || extra(s, s')
  }

  ghost predicate WiderFollows(extra: Extra, tr: seq<Sys>, i: nat)
    requires i + 1 < |tr|
  {
    WiderStep(extra, tr[i], tr[i + 1])
  }

  /** A run in which the extra steps can happen, too. */
  ghost predicate WiderRun(extra: Extra, tr: seq<Sys>)
    ensures WiderRun(extra, tr) ==> |tr| > 0
  {
    && |tr| > 0
    && Init(tr[0])
    && forall i :: 0 <= i < |tr| - 1 ==> WiderFollows(extra, tr, i)
  }

  ghost predicate Nothing(s: Sys, s': Sys) {
    false
  }

  lemma WiderIsRun(tr: seq<Sys>)
    requires WiderRun(Nothing, tr)
    ensures Run(tr)
  {
    forall i | 0 <= i < |tr| - 1
      ensures Follows(tr, i)
    {
      assert WiderFollows(Nothing, tr, i);
    }
  }

  ghost function Last(tr: seq<Sys>): Sys
    requires |tr| > 0
  {
    tr[|tr| - 1]
  }

  lemma Append(extra: Extra, tr: seq<Sys>, s: Sys) returns (tr': seq<Sys>)
    requires WiderRun(extra, tr) && WiderStep(extra, Last(tr), s)
    ensures WiderRun(extra, tr') && tr < tr' && Last(tr') == s
  {
    hide Init, WiderStep;
    tr' := tr + [s];
    forall i | 0 <= i < |tr'| - 1
      ensures WiderFollows(extra, tr', i)
    {
      if i < |tr| - 1 {
        assert WiderFollows(extra, tr, i);
      }
    }
  }

  lemma Extend(extra: Extra, tr: seq<Sys>, a: Action, s: Sys) returns (tr': seq<Sys>)
    requires WiderRun(extra, tr) && Does(a, Last(tr), s)
    ensures WiderRun(extra, tr') && tr < tr' && Last(tr') == s
  {
    hide Does;
    assert Step(Last(tr), s);
    tr' := Append(extra, tr, s);
  }

  // ---------- Pieces of runs ----------

  const EMPTY := Sys([], map[], 0, false, None, Idle, ClusterState(map[], map[], []))

  lemma Initially(extra: Extra) returns (tr: seq<Sys>)
    ensures WiderRun(extra, tr) && Last(tr) == EMPTY
  {
    tr := [EMPTY];
  }

  /** The error handler ends a reconcile. */
  ghost function Handled(s: Sys, e: BuildError): Sys {
    var t := s.(errors := s.errors + 1, pc := Idle);
    if t.errors > MAX_ERRORS then Stopped(t, Some(e)) else t
  }

  lemma Handle(extra: Extra, tr: seq<Sys>) returns (tr': seq<Sys>)
    requires WiderRun(extra, tr) && Last(tr).pc.Returning?
    ensures WiderRun(extra, tr') && tr < tr' && Last(tr') == Handled(Last(tr), Last(tr).pc.error)
  {
    hide WiderRun;
    tr' := Extend(extra, tr, ActHandle, Handled(Last(tr), Last(tr).pc.error));
  }

  /** A reconcile that cannot even fetch the image-builder pod. */
  lemma FailingReconcile(extra: Extra, tr: seq<Sys>) returns (tr': seq<Sys>)
    requires WiderRun(extra, tr) && Last(tr).pc.Idle?
    ensures WiderRun(extra, tr') && tr < tr' && Last(tr') == Handled(Last(tr), GetFailed)
  {
    hide WiderRun;
    tr' := Extend(extra, tr, ActBegin, Last(tr).(pc := Getting));
    tr' := Extend(extra, tr', ActGet, Last(tr).(pc := Returning(GetFailed)));
    tr' := Handle(extra, tr');
  }

  lemma FiveFailingReconciles(extra: Extra, tr: seq<Sys>) returns (tr': seq<Sys>)
    requires WiderRun(extra, tr) && Last(tr).pc.Idle? && Last(tr).errors == 0
    ensures WiderRun(extra, tr') && tr < tr' && Last(tr') == Last(tr).(errors := 5)
  {
    hide WiderRun;
    tr' := FailingReconcile(extra, tr);
    tr' := FailingReconcile(extra, tr');
    tr' := FailingReconcile(extra, tr');
    tr' := FailingReconcile(extra, tr');
    tr' := FailingReconcile(extra, tr');
  }

  /** From idle to the point where the pods are listed. */
  lemma Open(extra: Extra, tr: seq<Sys>) returns (tr': seq<Sys>)
    requires WiderRun(extra, tr) && Last(tr).pc.Idle? && Last(tr).pods != []
    ensures WiderRun(extra, tr') && tr < tr' && Last(tr') == Last(tr).(pc := Listing)
  {
    hide WiderRun;
    tr' := Extend(extra, tr, ActBegin, Last(tr).(pc := Getting));
    tr' := Extend(extra, tr', ActGet, Last(tr).(pc := Defining));
    tr' := Extend(extra, tr', ActDefine, Last(tr).(pc := Listing));
  }

  lemma {:induction false} Enumerate(m: map<PodName, Phase>, keys: set<PodName>) returns (items: seq<Item>)
    requires keys <= m.Keys
    ensures forall i, j :: 0 <= i < j < |items| ==> items[i].name != items[j].name
    ensures forall i :: 0 <= i < |items| ==> items[i].name in keys && m[items[i].name] == items[i].phase
    ensures forall n :: n in keys ==> Item(n, m[n]) in items
    decreases |keys|
  {
    if keys == {} {
      items := [];
    } else {
      var n :| n in keys;
      var rest := Enumerate(m, keys - {n});
      items := [Item(n, m[n])] + rest;
    }
  }

  function AllDone(keys: set<PodName>): map<PodName, Phase> {
    map n | n in keys :: Succeeded
  }

  ghost predicate ListedFrom(items: seq<Item>, k: nat, n: PodName) {
    exists i :: k <= i < |items| && items[i].name == n
  }

  lemma ListedNext(items: seq<Item>, k: nat, n: PodName)
    requires k < |items|
    ensures ListedFrom(items, k, n) <==> n == items[k].name || ListedFrom(items, k + 1, n)
  {
  }

  /** All listed pods have succeeded and are taken note of. */
  lemma {:induction false} ObserveDone(extra: Extra, tr: seq<Sys>, items: seq<Item>, k: nat) returns (tr': seq<Sys>)
    requires WiderRun(extra, tr) && k <= |items| && Last(tr).pc == Collecting(items, k, 0, 0)
    requires forall i :: 0 <= i < |items| ==> items[i].phase == Succeeded
    ensures WiderRun(extra, tr') && tr <= tr'
    ensures Last(tr') == Last(tr).(phase := Last(tr').phase, pc := Collecting(items, |items|, 0, 0))
    ensures forall n :: n in Last(tr').phase <==> n in Last(tr).phase || ListedFrom(items, k, n)
    ensures forall n :: n in Last(tr').phase ==>
              Last(tr').phase[n] == if ListedFrom(items, k, n) then Succeeded else Last(tr).phase[n]
    decreases |items| - k
  {
    hide WiderRun;
    if k == |items| {
      tr' := tr;
    } else {
      var it, s := items[k], Last(tr);
      var s' := s.(phase := s.phase[it.name := Succeeded], pc := Collecting(items, k + 1, 0, 0));
      if it.name in s.phase && s.phase[it.name] == Succeeded {
        assert s'.phase == s.phase;
      }
      assert Does(ActObserve, s, s');
      tr' := Extend(extra, tr, ActObserve, s');
      hide Does, ListedFrom;
      tr' := ObserveDone(extra, tr', items, k + 1);
      forall n
        ensures ListedFrom(items, k, n) <==> n == it.name || ListedFrom(items, k + 1, n)
      {
        ListedNext(items, k, n);
      }
    }
  }

  /** Only pods on their way to success exist, and they are tracked. */
  ghost predicate OnTheWay(s: Sys) {
    && s.pc.Idle? && s.pods != []
    && s.phase.Keys == s.cluster.actual.Keys
    && (forall n :: n in s.cluster.actual ==> Leads(s.cluster.actual[n], Succeeded))
    && (forall n :: n in s.cluster.cached ==> n in s.cluster.actual && Leads(s.cluster.cached[n], Succeeded))
  }

  ghost function Finished(s: Sys): Sys {
    s.(cluster := s.cluster.(actual := AllDone(s.phase.Keys), cached := AllDone(s.phase.Keys)))
  }

  /** Every pod succeeds and the cache notices. */
  lemma Finish(extra: Extra, tr: seq<Sys>) returns (tr': seq<Sys>)
    requires WiderRun(extra, tr) && OnTheWay(Last(tr))
    ensures WiderRun(extra, tr') && tr < tr' && Last(tr') == Finished(Last(tr))
  {
    hide WiderRun;
    tr' := Extend(extra, tr, ActEnvironment, Finished(Last(tr)));
  }

  lemma ListsTheKeys(items: seq<Item>, keys: set<PodName>, n: PodName)
    requires forall i :: 0 <= i < |items| ==> items[i].name in keys
    requires forall m :: m in keys ==> Item(m, Succeeded) in items
    ensures ListedFrom(items, 0, n) <==> n in keys
  {
    if n in keys {
      var i :| 0 <= i < |items| && items[i] == Item(n, Succeeded);
      assert items[i].name == n;
    }
  }

  /** Lists pods that have all succeeded and takes note of them. */
  lemma ListDone(extra: Extra, tr: seq<Sys>) returns (tr': seq<Sys>, items: seq<Item>)
    requires WiderRun(extra, tr) && Last(tr).pc.Listing? && Last(tr).cluster.cached == AllDone(Last(tr).phase.Keys)
    ensures WiderRun(extra, tr') && tr < tr'
    ensures Last(tr') == Last(tr).(phase := AllDone(Last(tr).phase.Keys), pc := Collecting(items, |items|, 0, 0))
  {
    hide WiderRun;
    var keys := Last(tr).phase.Keys;
    items := Enumerate(AllDone(keys), keys);
    tr' := Extend(extra, tr, ActList, Last(tr).(pc := Collecting(items, 0, 0, 0)));
    hide Does, ListedFrom;
    tr' := ObserveDone(extra, tr', items, 0);
    forall n
      ensures ListedFrom(items, 0, n) <==> n in keys
    {
      ListsTheKeys(items, keys, n);
    }
    assert Last(tr').phase == AllDone(keys);
  }

  /** Every pod succeeds, and the next reconcile gets as far as the start loop. */
  lemma Settle(extra: Extra, tr: seq<Sys>) returns (tr': seq<Sys>)
    requires WiderRun(extra, tr) && OnTheWay(Last(tr))
    ensures WiderRun(extra, tr') && tr < tr'
    ensures Last(tr') == Finished(Last(tr)).(phase := AllDone(Last(tr).phase.Keys), pc := Starting(0, NoGroup, false))
  {
    hide WiderRun;
    tr' := Finish(extra, tr);
    tr' := Open(extra, tr');
    var items;
    tr', items := ListDone(extra, tr');
    tr' := Extend(extra, tr', ActDecide, Last(tr').(pc := Starting(0, NoGroup, false)));
  }

  lemma {:induction false} SkipTo(extra: Extra, tr: seq<Sys>, k: nat) returns (tr': seq<Sys>)
    requires WiderRun(extra, tr) && Last(tr).pc.Starting? && Last(tr).pc.index <= k <= |Last(tr).pods|
    requires forall i :: Last(tr).pc.index <= i < k ==> Last(tr).pods[i].name in Last(tr).phase
    ensures WiderRun(extra, tr') && tr <= tr' && Last(tr') == Last(tr).(pc := Last(tr).pc.(index := k))
    decreases k - Last(tr).pc.index
  {
    hide WiderRun;
    var s := Last(tr);
    if s.pc.index == k {
      tr' := tr;
    } else {
      tr' := Extend(extra, tr, ActSkip, s.(pc := s.pc.(index := s.pc.index + 1)));
      tr' := SkipTo(extra, tr', k);
    }
  }

  ghost function StartedPod(s: Sys): Sys
    requires s.pc.Starting? && s.pc.index < |s.pods|
  {
    var p := s.pods[s.pc.index];
    s.(phase := s.phase[p.name := Pending], pc := Starting(s.pc.index + 1, p.group, true), cluster := Created(s.cluster, p.name))
  }

  lemma StartOne(extra: Extra, tr: seq<Sys>) returns (tr': seq<Sys>)
    requires WiderRun(extra, tr) && Last(tr).pc.Starting? && Last(tr).pc.index < |Last(tr).pods| && !LoopOver(Last(tr))
    requires Last(tr).pods[Last(tr).pc.index].name !in Last(tr).phase
    requires Last(tr).pods[Last(tr).pc.index].name !in Last(tr).cluster.actual
    ensures WiderRun(extra, tr') && tr < tr' && Last(tr') == StartedPod(Last(tr))
  {
    hide WiderRun;
    tr' := Extend(extra, tr, ActStart, StartedPod(Last(tr)));
  }

  // ---------- Which verdicts are the end ----------

  const A := PodName("ns", "a")
  const B := PodName("ns", "b")
  const TWO_PODS := [BuildPod(A, Clonerefs), BuildPod(B, ParallelBuild)]

  lemma TwoPods()
    ensures WellFormed(TWO_PODS) && A != B && Boundary(TWO_PODS, 0, 1)
  {
    assert TWO_PODS[1 - 1].group != TWO_PODS[1].group;
  }

  ghost predicate Fresh(s: Sys) {
    s.pods == [] && s.phase == map[] && s.pc.Idle? && s.cluster == ClusterState(map[], map[], [])
  }

  ghost function WithFirst(s: Sys, pods: seq<BuildPod>): Sys
    requires |pods| > 0
  {
    var n := pods[0].name;
    s.(pods := pods, phase := map[n := Pending], cluster := ClusterState(map[n := Pending], map[], [n]))
  }

  /** The first reconcile defines the pods and starts the first one, which is alone in its group. */
  lemma FirstPod(extra: Extra, tr: seq<Sys>, pods: seq<BuildPod>) returns (tr': seq<Sys>)
    requires WiderRun(extra, tr) && Fresh(Last(tr))
    requires |pods| > 1 && pods[0].name != pods[1].name && pods[0].group != pods[1].group && pods[0].group != NoGroup
    requires WiderStep(extra, Last(tr).(pc := Defining), Last(tr).(pods := pods, pc := Listing))
    ensures WiderRun(extra, tr') && tr < tr' && Last(tr') == WithFirst(Last(tr), pods)
  {
    hide WiderRun, WiderStep;
    var s := Last(tr);
    tr' := Extend(extra, tr, ActBegin, s.(pc := Getting));
    tr' := Extend(extra, tr', ActGet, s.(pc := Defining));
    tr' := Append(extra, tr', s.(pods := pods, pc := Listing));
    tr' := Extend(extra, tr', ActList, Last(tr').(pc := Collecting([], 0, 0, 0)));
    tr' := Extend(extra, tr', ActDecide, Last(tr').(pc := Starting(0, NoGroup, false)));
    tr' := StartOne(extra, tr');
    tr' := Extend(extra, tr', ActFinish, Last(tr').(pc := Idle));
    assert Last(tr').phase == map[pods[0].name := Pending];
  }

  /** Once the first pod has succeeded a reconcile starts the second one. */
  lemma SecondPod(extra: Extra, tr: seq<Sys>, pods: seq<BuildPod>) returns (tr': seq<Sys>)
    requires WiderRun(extra, tr) && OnTheWay(Last(tr)) && Last(tr).pods == pods
    requires |pods| > 1 && pods[0].name != pods[1].name && Last(tr).phase.Keys == {pods[0].name}
    ensures WiderRun(extra, tr') && tr < tr'
    ensures Last(tr') == StartedPod(Finished(Last(tr)).(phase := AllDone(Last(tr).phase.Keys), pc := Starting(1, NoGroup, false)))
  {
    hide WiderRun, Does;
    tr' := Settle(extra, tr);
    tr' := SkipTo(extra, tr', 1);
    tr' := StartOne(extra, tr');
  }

  /** The first pod is started, then five reconciles fail. */
  lemma OneMoreErrorStops() returns (tr: seq<Sys>)
    ensures WiderRun(Nothing, tr) && Last(tr) == WithFirst(EMPTY, TWO_PODS).(errors := 5)
  {
    hide WiderRun;
    TwoPods();
    tr := Initially(Nothing);
    assert Does(ActDefine, Last(tr).(pc := Defining), Last(tr).(pods := TWO_PODS, pc := Listing));
    tr := FirstPod(Nothing, tr, TWO_PODS);
    tr := FiveFailingReconciles(Nothing, tr);
  }

  /** The reconcile is about to return the error; what is tracked and what exists are as before. */
  ghost predicate EndingIn(e: BuildError, s: Sys, s': Sys) {
    && s'.pc == Returning(e)
    && s'.pods == s.pods && s'.errors == s.errors && s'.canceled == s.canceled && s'.err == s.err
    && s'.cluster.log == s.cluster.log && s'.phase.Keys == s.phase.Keys && OnTheWay(s'.(pc := Idle))
  }

  lemma LogsCanFail(tr: seq<Sys>) returns (tr': seq<Sys>)
    requires WiderRun(Nothing, tr) && Last(tr) == WithFirst(EMPTY, TWO_PODS).(errors := 5)
    ensures WiderRun(Nothing, tr') && tr < tr' && EndingIn(LogsFailed, Last(tr), Last(tr'))
  {
    hide WiderRun;
    tr' := Finish(Nothing, tr);
    tr' := Open(Nothing, tr');
    var items := [Item(A, Succeeded)];
    tr' := Extend(Nothing, tr', ActList, Last(tr').(pc := Collecting(items, 0, 0, 0)));
    tr' := Extend(Nothing, tr', ActObserve, Last(tr').(pc := Returning(LogsFailed)));
  }

  lemma CreateCanFail(tr: seq<Sys>) returns (tr': seq<Sys>)
    requires WiderRun(Nothing, tr) && Last(tr) == WithFirst(EMPTY, TWO_PODS).(errors := 5)
    ensures WiderRun(Nothing, tr') && tr < tr' && EndingIn(CreateFailed, Last(tr), Last(tr'))
  {
    hide WiderRun;
    TwoPods();
    tr' := Settle(Nothing, tr);
    tr' := SkipTo(Nothing, tr', 1);
    tr' := Extend(Nothing, tr', ActStart, Last(tr').(pc := Returning(CreateFailed)));
  }

  lemma PodsCanBeMissing(tr: seq<Sys>) returns (tr': seq<Sys>)
    requires WiderRun(Nothing, tr) && Last(tr) == WithFirst(EMPTY, TWO_PODS).(errors := 5)
    ensures WiderRun(Nothing, tr') && tr < tr' && EndingIn(PodsNotFound, Last(tr), Last(tr'))
  {
    hide WiderRun;
    tr' := Open(Nothing, tr);
    tr' := Extend(Nothing, tr', ActList, Last(tr).(pc := Collecting([], 0, 0, 0)));
    assert Last(tr).phase[A] == Pending;
    tr' := Extend(Nothing, tr', ActDecide, Last(tr).(pc := Returning(PodsNotFound)));
  }

  /** A reconcile that ends in the given error. */
  lemma ReconcileEndingIn(e: BuildError, tr: seq<Sys>) returns (tr': seq<Sys>)
    requires WiderRun(Nothing, tr) && Last(tr) == WithFirst(EMPTY, TWO_PODS).(errors := 5)
    requires e != PodsFailed && e != DefineFailed
    ensures WiderRun(Nothing, tr') && tr < tr' && EndingIn(e, Last(tr), Last(tr'))
  {
    hide WiderRun;
    match e {
      case GetFailed =>
        tr' := Extend(Nothing, tr, ActBegin, Last(tr).(pc := Getting));
        tr' := Extend(Nothing, tr', ActGet, Last(tr).(pc := Returning(GetFailed)));
      case ListFailed =>
        tr' := Open(Nothing, tr);
        tr' := Extend(Nothing, tr', ActList, Last(tr).(pc := Returning(ListFailed)));
      case PodsNotFound =>
        tr' := PodsCanBeMissing(tr);
      case LogsFailed =>
        tr' := LogsCanFail(tr);
      case CreateFailed =>
        tr' := CreateCanFail(tr);
    }
  }

  /** After a stop because of too many errors, whatever the last one was, a later reconcile can create a pod. */
  lemma StoppedControllerCanCreate(e: BuildError) returns (tr: seq<Sys>, i: nat)
    requires e != PodsFailed
    ensures Run(tr) && i < |tr|
    ensures tr[i].canceled && tr[i].err == Some(e)
    ensures tr[i].cluster.log != tr[|tr| - 1].cluster.log
  {
    hide WiderRun, Does;
    if e == DefineFailed {
      tr, i := StoppedByDefinition();
    } else {
      tr := OneMoreErrorStops();
      tr := ReconcileEndingIn(e, tr);
      tr := Handle(Nothing, tr);
      i := |tr| - 1;
      tr := SecondPod(Nothing, tr, TWO_PODS);
      WiderIsRun(tr);
    }
  }

  lemma StoppedByDefinition() returns (tr: seq<Sys>, i: nat)
    ensures Run(tr) && i < |tr|
    ensures tr[i].canceled && tr[i].err == Some(DefineFailed)
    ensures tr[i].cluster.log != tr[|tr| - 1].cluster.log
  {
    hide WiderRun;
    TwoPods();
    tr := Initially(Nothing);
    tr := FiveFailingReconciles(Nothing, tr);
    tr := Extend(Nothing, tr, ActBegin, Last(tr).(pc := Getting));
    tr := Extend(Nothing, tr, ActGet, Last(tr).(pc := Defining));
    tr := Extend(Nothing, tr, ActDefine, Last(tr).(pc := Returning(DefineFailed)));
    tr := Handle(Nothing, tr);
    i := |tr| - 1;
    assert Does(ActDefine, Last(tr).(pc := Defining), Last(tr).(pods := TWO_PODS, pc := Listing));
    tr := FirstPod(Nothing, tr, TWO_PODS);
    WiderIsRun(tr);
  }

  /** In every run the verdict v is followed by no creation. */
  ghost predicate EndsEveryRun(v: Option<BuildError>) {
    forall tr: seq<Sys>, i: int, j: int :: Run(tr) && 0 <= i <= j < |tr| && tr[i].canceled && tr[i].err == v ==> tr[j].cluster.log == tr[i].cluster.log
  }

  /** Exactly the verdicts of success and of failed pods rule out that a pod is created later. */
  lemma VerdictEndsCreationIff(v: Option<BuildError>)
    ensures EndsEveryRun(v) <==> v == None || v == Some(PodsFailed)
  {
    hide Run;
    if v == None || v == Some(PodsFailed) {
      forall tr: seq<Sys>, i: int, j: int | Run(tr) && 0 <= i <= j < |tr| && tr[i].canceled && tr[i].err == v
        ensures tr[j].cluster.log == tr[i].cluster.log
      {
        VerdictIsFinal(tr, i, j);
      }
    } else {
      var tr, i := StoppedControllerCanCreate(v.value);
    }
  }

  // ---------- What the assumptions are for ----------

  /** The environment, with pods that can also become `Unknown`. */
  ghost predicate UnknownStep(s: Sys, s': Sys) {
    && s' == s.(cluster := s'.cluster)
    && s'.cluster.log == s.cluster.log && s'.cluster.actual.Keys == s.cluster.actual.Keys
    && s.cluster.cached.Keys <= s'.cluster.cached.Keys <= s'.cluster.actual.Keys
    && (forall n :: n in s.cluster.actual ==> LeadsOrUnknown(s.cluster.actual[n], s'.cluster.actual[n]))
    && (forall n :: n in s.cluster.cached ==> LeadsOrUnknown(s.cluster.cached[n], s'.cluster.cached[n]))
    && (forall n :: n in s'.cluster.cached ==> LeadsOrUnknown(s'.cluster.cached[n], s'.cluster.actual[n]))
  }

  predicate LeadsOrUnknown(p: Phase, q: Phase) {
    Leads(p, q) || q == Unknown
  }

  /**
   A pod in phase `Unknown` counts neither as running nor as failed: a run in which the pod of a later
   group is created although the pod of an earlier one has not succeeded.
   */
  lemma UnknownPhaseBreaksBarrier() returns (tr: seq<Sys>)
    ensures WiderRun(UnknownStep, tr)
    ensures var s := Last(tr);
            && s.pods == TWO_PODS && Boundary(s.pods, 0, 1)
            && s.cluster.log == [A, B] && A in s.cluster.actual && s.cluster.actual[A] == Unknown
  {
    hide WiderRun;
    TwoPods();
    tr := Initially(UnknownStep);
    assert Does(ActDefine, Last(tr).(pc := Defining), Last(tr).(pods := TWO_PODS, pc := Listing));
    tr := FirstPod(UnknownStep, tr, TWO_PODS);
    tr := Append(UnknownStep, tr, Last(tr).(cluster := ClusterState(map[A := Unknown], map[A := Unknown], [A])));
    tr := Open(UnknownStep, tr);
    tr := Extend(UnknownStep, tr, ActList, Last(tr).(pc := Collecting([Item(A, Unknown)], 0, 0, 0)));
    tr := Extend(UnknownStep, tr, ActObserve,
                 Last(tr).(phase := Last(tr).phase[A := Unknown], pc := Collecting([Item(A, Unknown)], 1, 0, 0)));
    assert Last(tr).phase.Keys == {A} && !ShouldRun(Last(tr).phase);
    tr := Extend(UnknownStep, tr, ActDecide, Last(tr).(pc := Starting(0, NoGroup, false)));
    tr := SkipTo(UnknownStep, tr, 1);
    tr := StartOne(UnknownStep, tr);
  }

  /** Two variants and two targets whose names join to the same pod name. */
  const COLLIDING := BuildController.Options((s: string) => PodName("ns", s), [Some("a-b"), Some("a")], ["c", "b-c"], false)

  /** The controller defines its pods without regard to their names. */
  ghost predicate DefineColliding(s: Sys, s': Sys) {
    s.pc.Defining? && s.pods == [] && s' == s.(pods := Definition(COLLIDING), pc := Listing)
  }

  function Named(s: string): BuildPod {
    BuildPod(PodName("ns", s), ParallelBuild)
  }

  lemma CollidingDefinition()
    ensures Definition(COLLIDING)
         == [BuildPod(PodName("ns", "clonerefs"), Clonerefs), Named("a-b-c"), Named("a-b-b-c"), Named("a-c"), Named("a-b-c")]
  {
    var o := COLLIDING;
    AllVariantPodsStep(o, o.variants, 0);
    AllVariantPodsStep(o, o.variants, 1);
    assert o.variants[..1 + 1] == o.variants && o.variants[..0] == [];
    assert "a-b" + "-" + "c" == "a-b-c" == "a" + "-" + "b-c";
    assert "a-b" + "-" + "b-c" == "a-b-b-c" && "a" + "-" + "c" == "a-c";
    assert VariantPods(o, Some("a-b"), 2) == [TargetPod(o, Some("a-b"), 0), TargetPod(o, Some("a-b"), 1)];
    assert VariantPods(o, Some("a"), 2) == [TargetPod(o, Some("a"), 0), TargetPod(o, Some("a"), 1)];
  }

  /** The pods are four distinct ones in two groups, and the second one once more. */
  ghost predicate SecondTwice(pods: seq<BuildPod>) {
    && |pods| == 5 && pods[4] == pods[1]
    && (forall i, j :: 0 <= i < j < 4 ==> pods[i].name != pods[j].name)
    && pods[0].group != NoGroup && pods[0].group != pods[1].group
    && pods[1].group == pods[2].group == pods[3].group != NoGroup
  }

  /** The run of a controller with such pods: it starts the second one only once and then reports success. */
  lemma SecondTwiceRun(extra: Extra, tr: seq<Sys>, pods: seq<BuildPod>) returns (tr': seq<Sys>)
    requires WiderRun(extra, tr) && SecondTwice(pods) && Last(tr) == WithFirst(EMPTY, pods)
    ensures WiderRun(extra, tr') && Last(tr').pods == pods && Last(tr').canceled && Last(tr').err == None
    ensures Last(tr').cluster.log == [pods[0].name, pods[1].name, pods[2].name, pods[3].name]
  {
    hide WiderRun;
    tr' := SecondPod(extra, tr, pods);
    tr' := StartOne(extra, tr');
    tr' := StartOne(extra, tr');
    tr' := SkipTo(extra, tr', 5);
    tr' := Extend(extra, tr', ActFinish, Last(tr').(pc := Idle));
    tr' := Settle(extra, tr');
    tr' := SkipTo(extra, tr', 5);
    tr' := Extend(extra, tr', ActFinish, Stopped(Last(tr'), None).(pc := Idle));
  }

  /** With colliding names one of five defined builds never happens, and success is reported. */
  lemma CollidingNamesAreSkipped() returns (tr: seq<Sys>)
    ensures WiderRun(DefineColliding, tr)
    ensures var s := Last(tr);
            && s.pods == Definition(COLLIDING) && |s.pods| == 5 && |s.cluster.log| == 4
            && s.canceled && s.err == None
  {
    hide WiderRun, Definition;
    CollidingDefinition();
    var pods := Definition(COLLIDING);
    assert |"clonerefs"| == 9 && |"a-b-c"| == 5 && |"a-b-b-c"| == 7 && |"a-c"| == 3;
    assert SecondTwice(pods);
    tr := Initially(DefineColliding);
    tr := FirstPod(DefineColliding, tr, pods);
    tr := SecondTwiceRun(DefineColliding, tr, pods);
  }
}
