/** What every run of the image-builder controller guarantees. */
module BuildTheorems {
  import opened Wrappers
  import opened BuildMachine
  import opened BuildSafety

  /** Only a create request of the start loop brings a pod into existence. */
  lemma OnlyStartCreates(s: Sys, s': Sys, name: PodName)
    requires Step(s, s') && name !in s.cluster.actual && name in s'.cluster.actual
    ensures StartPod(s, s') && s.pods[s.pc.index].name == name
    ensures name !in s.phase && s'.cluster == Created(s.cluster, name)
  {
    var a :| Does(a, s, s');
    assert a == ActStart;
  }

  lemma StepBarrier(s: Sys, s': Sys, name: PodName)
    requires Inv(s) && Step(s, s') && name !in s.cluster.actual && name in s'.cluster.actual
    ensures var k := |s.cluster.log|;
            && k < |s.pods| && s.pods[k].name == name
            && forall j :: 0 <= j < k && Boundary(s.pods, j, k) ==>
                 s.pods[j].name in s.cluster.actual && s.cluster.actual[s.pods[j].name] == Succeeded
  {
    OnlyStartCreates(s, s', name);
    var mid := s.(cluster := Created(s.cluster, name));
    CreateKeepsCluster(s, mid);
    CreatedAtEnd(s, mid);
    BarrierBeforeCreate(s, mid, name);
  }

  lemma BarrierBeforeCreate(s: Sys, mid: Sys, name: PodName)
    requires Barrier(mid) && mid == s.(cluster := Created(s.cluster, name)) && |s.cluster.log| < |s.pods|
    ensures forall j :: 0 <= j < |s.cluster.log| && Boundary(s.pods, j, |s.cluster.log|) ==>
              s.pods[j].name in s.cluster.actual && s.cluster.actual[s.pods[j].name] == Succeeded
  {
  }

  /** Group barrier: whatever comes into existence, all earlier build groups have really succeeded. */
  lemma GroupBarrier(tr: seq<Sys>, i: nat, name: PodName)
    requires Run(tr) && i + 1 < |tr|
    requires name !in tr[i].cluster.actual && name in tr[i + 1].cluster.actual
    ensures var s := tr[i]; var k := |s.cluster.log|;
            && k < |s.pods| && s.pods[k].name == name
            && forall j :: 0 <= j < k && Boundary(s.pods, j, k) ==>
                 s.pods[j].name in s.cluster.actual && s.cluster.actual[s.pods[j].name] == Succeeded
  {
    RunKeepsInv(tr, i);
    assert Follows(tr, i);
    StepBarrier(tr[i], tr[i + 1], name);
  }

  lemma CreatedAtEnd(s: Sys, mid: Sys)
    requires CreatedPrefix(s) && CreatedPrefix(mid) && s.pods == mid.pods && s.phase == mid.phase
    requires |mid.cluster.log| == |s.cluster.log| + 1
    ensures |s.cluster.log| == |s.phase|
  {
  }

  /** Created pods are a duplicate-free prefix of the definition, and all but the last are tracked. */
  lemma CreatedOnceInOrder(tr: seq<Sys>, i: nat)
    requires Run(tr) && i < |tr|
    ensures var s := tr[i];
            && |s.phase| <= |s.cluster.log| <= |s.phase| + 1 && |s.cluster.log| <= |s.pods|
            && (forall k :: 0 <= k < |s.cluster.log| ==> s.cluster.log[k] == s.pods[k].name)
            && (forall k :: 0 <= k < |s.pods| ==> (s.pods[k].name in s.cluster.actual <==> k < |s.cluster.log|))
            && (forall k :: 0 <= k < |s.pods| ==> (s.pods[k].name in s.phase <==> k < |s.phase|))
            && (forall j, k :: 0 <= j < k < |s.cluster.log| ==> s.cluster.log[j] != s.cluster.log[k])
  {
    RunKeepsInv(tr, i);
    var s := tr[i];
    forall k | 0 <= k < |s.pods|
      ensures Pos(s.pods, s.pods[k].name) == k
    {
      PosAt(s.pods, k);
    }
  }

  /** A success verdict is never false. */
  lemma NoFalseSuccess(tr: seq<Sys>, i: nat)
    requires Run(tr) && i < |tr|
    requires tr[i].canceled && tr[i].err == None
    ensures AllSucceeded(tr[i])
  {
    RunKeepsInv(tr, i);
  }

  /** A failure verdict has a reason: a build pod really failed, or six reconciles ended in an error. */
  lemma FailureHasReason(tr: seq<Sys>, i: nat)
    requires Run(tr) && i < |tr|
    requires tr[i].err.Some?
    ensures tr[i].canceled
    ensures if tr[i].err == Some(PodsFailed) then SomeFailed(tr[i]) else tr[i].errors > 5
  {
    RunKeepsInv(tr, i);
  }

  /** What no single step undoes. */
  ghost predicate Grows(s: Sys, s': Sys) {
    && (s.pods != [] ==> s'.pods == s.pods)
    && s.cluster.log <= s'.cluster.log
    && s.cluster.actual.Keys <= s'.cluster.actual.Keys
    && (forall n :: n in s.cluster.actual ==> Leads(s.cluster.actual[n], s'.cluster.actual[n]))
    && (s.canceled ==> s'.canceled && s'.err == s.err)
  }

  lemma StepGrows(s: Sys, s': Sys)
    requires Step(s, s')
    ensures Grows(s, s')
  {
    hide CreateStep, ShouldRun, Snapshot;
    var a :| Does(a, s, s');
    if a == ActStart {
      CreateGrows(s, s');
    }
  }

  lemma CreateGrows(s: Sys, s': Sys)
    requires StartPod(s, s')
    ensures Grows(s, s')
  {
  }

  lemma RunStepGrows(tr: seq<Sys>, i: nat)
    requires Run(tr) && i + 1 < |tr|
    ensures Grows(tr[i], tr[i + 1])
  {
    assert Follows(tr, i);
    StepGrows(tr[i], tr[i + 1]);
  }

  lemma {:induction false} RunGrows(tr: seq<Sys>, i: nat, j: nat)
    requires Run(tr) && i <= j < |tr|
    ensures Grows(tr[i], tr[j])
  {
    if i == j {
    } else {
      RunGrows(tr, i, j - 1);
      RunStepGrows(tr, j - 1);
      GrowsTransitive(tr[i], tr[j - 1], tr[j]);
    }
  }

  lemma GrowsTransitive(s: Sys, t: Sys, u: Sys)
    requires Grows(s, t) && Grows(t, u)
    ensures Grows(s, u)
  {
  }

  // ---------- Failure containment ----------

  /** A pod has failed and the controller has not got past the point where it must notice. */
  ghost predicate Doomed(s: Sys, n: PodName) {
    && n in s.cluster.actual && s.cluster.actual[n] == Failed
    && match s.pc
       case Collecting(items, next, running, failed) =>
         forall i :: 0 <= i < next <= |items| && items[i].name == n ==> running != 0 || failed != 0
       case Starting(_, _, created) => !created && n !in s.phase
       case _ => true
  }

  /** A listed pod that has really failed counts as running or as failed. */
  lemma FailedPodIsCounted(s: Sys, i: nat)
    requires Stale(s) && s.pc.Collecting? && CollectingInv(s) && i < |s.pc.items|
    requires s.pc.items[i].name in s.cluster.actual && s.cluster.actual[s.pc.items[i].name] == Failed
    ensures Busy(s.pc.items[i].phase) || s.pc.items[i].phase == Failed
  {
    var n := s.pc.items[i].name;
    assert Leads(s.pc.items[i].phase, s.cluster.cached[n]) && Leads(s.cluster.cached[n], Failed);
  }

  lemma DoomedObserve(s: Sys, s': Sys, n: PodName)
    requires Inv(s) && Doomed(s, n) && Observe(s, s')
    ensures Doomed(s', n) && s'.cluster == s.cluster
  {
    hide TrackedPrefix, CreatedPrefix, Barrier, VerdictSound;
    if s.pc.items[s.pc.next].name == n {
      FailedPodIsCounted(s, s.pc.next);
    }
  }

  lemma DoomedDecide(s: Sys, s': Sys, n: PodName)
    requires Inv(s) && Doomed(s, n) && Decide(s, s')
    ensures Doomed(s', n) && s'.cluster == s.cluster
  {
    hide TrackedPrefix, CreatedPrefix, Barrier, VerdictSound;
    if s'.pc.Starting? && n in s.phase {
      TrackedHaveSucceeded(s, n);
    }
  }

  /** The failed pod exists but is untracked, so it is the next one to start and Create refuses it. */
  lemma DoomedStart(s: Sys, s': Sys, n: PodName)
    requires Inv(s) && Doomed(s, n) && StartPod(s, s')
    ensures Doomed(s', n) && s'.cluster == s.cluster
  {
    StartsNext(s);
    PosAt(s.pods, s.pc.index);
    assert Pos(s.pods, n) == |s.phase|;
    assert s.pods[s.pc.index].name == n;
  }

  lemma DoomedOtherwise(a: Action, s: Sys, s': Sys, n: PodName)
    requires Doomed(s, n) && Does(a, s, s') && a != ActObserve && a != ActDecide && a != ActStart
    ensures Doomed(s', n) && s'.cluster.log == s.cluster.log
  {
    if a == ActEnvironment {
      assert Leads(s.cluster.actual[n], s'.cluster.actual[n]);
    }
  }

  lemma StepKeepsDoomed(s: Sys, s': Sys, n: PodName)
    requires Inv(s) && Doomed(s, n) && Step(s, s')
    ensures Doomed(s', n) && s'.cluster.log == s.cluster.log
  {
    hide Inv, Doomed, Environment, Begin, GetPod, Define, ListPods, Observe, Decide, SkipPod, StartPod, FinishStart, HandleError;
    var a :| Does(a, s, s');
    match a
    case ActObserve => DoomedObserve(s, s', n);
    case ActDecide => DoomedDecide(s, s', n);
    case ActStart => DoomedStart(s, s', n);
    case _ => DoomedOtherwise(a, s, s', n);
  }

  lemma RunStepKeepsDoomed(tr: seq<Sys>, i: nat, n: PodName)
    requires Run(tr) && i + 1 < |tr| && Doomed(tr[i], n)
    ensures Doomed(tr[i + 1], n) && tr[i + 1].cluster.log == tr[i].cluster.log
  {
    RunKeepsInv(tr, i);
    assert Follows(tr, i);
    StepKeepsDoomed(tr[i], tr[i + 1], n);
  }

  lemma {:induction false} RunKeepsDoomed(tr: seq<Sys>, i: nat, j: nat, n: PodName)
    requires Run(tr) && i <= j < |tr| && Doomed(tr[i], n)
    ensures Doomed(tr[j], n) && tr[j].cluster.log == tr[i].cluster.log
  {
    if i == j {
    } else {
      RunKeepsDoomed(tr, i, j - 1, n);
      RunStepKeepsDoomed(tr, j - 1, n);
    }
  }

  /** Once a build pod has really failed, only the reconcile already under way can create pods. */
  lemma FailureContainment(tr: seq<Sys>, i: nat, j: nat)
    requires Run(tr) && i <= j < |tr|
    requires tr[i].pc.Idle? && SomeFailed(tr[i])
    ensures tr[j].cluster.log == tr[i].cluster.log
    ensures tr[j].cluster.actual.Keys == tr[i].cluster.actual.Keys
  {
    var n :| n in tr[i].cluster.actual && tr[i].cluster.actual[n] == Failed;
    RunKeepsDoomed(tr, i, j, n);
    RunKeepsInv(tr, i);
    RunKeepsInv(tr, j);
    RunGrows(tr, i, j);
    forall x
      ensures x in tr[j].cluster.actual <==> x in tr[i].cluster.actual
    {
      assert x in tr[j].cluster.actual <==> Pos(tr[j].pods, x) < |tr[j].cluster.log|;
    }
  }

  // ---------- Verdicts ----------

  ghost predicate SomeDoomed(s: Sys) {
    exists n :: Doomed(s, n)
  }

  /** Only the decision to stop because of failed pods gives that verdict. */
  lemma FailedVerdictIsDecided(s: Sys, s': Sys)
    requires Inv(s) && Step(s, s') && s.err != Some(PodsFailed) && s'.err == Some(PodsFailed)
    ensures SomeDoomed(s')
  {
    hide TrackedPrefix, CreatedPrefix, Barrier, CollectingInv, StartingInv, Stale, VerdictSound, CreateStep, ShouldRun;
    var a :| Does(a, s, s');
    assert a == ActDecide;
    ListedFailureIsReal(s);
    var n :| n in s.cluster.actual && s.cluster.actual[n] == Failed;
    assert Doomed(s', n);
  }

  /** With the verdict that pods failed, some pod has failed and cannot be overlooked any more. */
  lemma {:induction false} FailedVerdictIsDoomed(tr: seq<Sys>, i: nat)
    requires Run(tr) && i < |tr| && tr[i].err == Some(PodsFailed)
    ensures SomeDoomed(tr[i])
  {
    hide Inv, Doomed;
    if i == 0 {
      assert false;
    } else {
      RunKeepsInv(tr, i - 1);
      assert Follows(tr, i - 1);
      if tr[i - 1].err == Some(PodsFailed) {
        FailedVerdictIsDoomed(tr, i - 1);
        var n :| Doomed(tr[i - 1], n);
        StepKeepsDoomed(tr[i - 1], tr[i], n);
      } else {
        FailedVerdictIsDecided(tr[i - 1], tr[i]);
      }
    }
  }

  /** A verdict after which nothing can be created. */
  predicate Ends(v: Option<BuildError>) {
    v == None || v == Some(PodsFailed)
  }

  /** The verdict never changes, and after success or after failed pods no pod is created any more. */
  lemma VerdictIsFinal(tr: seq<Sys>, i: nat, j: nat)
    requires Run(tr) && i <= j < |tr| && tr[i].canceled
    ensures tr[j].canceled && tr[j].err == tr[i].err
    ensures Ends(tr[i].err) ==> tr[j].cluster.log == tr[i].cluster.log
  {
    RunGrows(tr, i, j);
    if tr[i].err == None {
      NoFalseSuccess(tr, i);
      CreatedOnceInOrder(tr, i);
      CreatedOnceInOrder(tr, j);
      var s := tr[i];
      var last := |s.pods| - 1;
      assert s.pods[last].name in s.cluster.actual;
      assert |s.cluster.log| == |s.pods|;
    } else if tr[i].err == Some(PodsFailed) {
      FailedVerdictIsDoomed(tr, i);
      var n :| Doomed(tr[i], n);
      RunKeepsDoomed(tr, i, j, n);
    }
  }

  // ---------- Termination ----------

  /** A reconcile that ends here without having seen a pending or running pod, before cancellation. */
  ghost predicate Spends(s: Sys, s': Sys) {
    && !s.canceled && !s.pc.Idle? && s'.pc.Idle?
    && !(s.pc.Collecting? && s.pc.running != 0)
  }

  /** How many reconciles of a run did something other than wait, up to the one that cancels. */
  ghost function SpentCount(tr: seq<Sys>): nat {
    if |tr| <= 1 then 0
    else SpentCount(tr[..|tr| - 1]) + (if Spends(tr[|tr| - 2], tr[|tr| - 1]) then 1 else 0)
  }

  /** What has been paid for: started pods, used error slots, and the cancellation. */
  ghost function Budget(s: Sys): int {
    if s.canceled then |s.pods| + MAX_ERRORS + 1
    else |s.phase| + s.errors - (if s.pc.Starting? && s.pc.created then 1 else 0)
  }

  /** Before cancellation the budget is small enough to pay for the cancelling reconcile. */
  lemma CancelIsPaid(s: Sys, s': Sys)
    requires |s.phase| <= |s.pods| && (s.errors > MAX_ERRORS ==> s.canceled)
    requires !s.canceled && s'.canceled && s'.pods == s.pods
    ensures Budget(s) + 1 <= Budget(s')
  {
  }

  lemma ObserveIsFree(s: Sys, s': Sys)
    requires Observe(s, s') && !s.canceled
    ensures Budget(s) <= Budget(s') && !Spends(s, s')
  {
    if s'.phase != s.phase {
      var it := s.pc.items[s.pc.next];
      assert s'.phase == s.phase[it.name := it.phase];
    }
  }

  lemma StartPodPays(s: Sys, s': Sys)
    requires StartPod(s, s') && !s.canceled
    ensures Budget(s) <= Budget(s') && !Spends(s, s')
  {
  }

  lemma OtherwisePays(a: Action, s: Sys, s': Sys)
    requires !s.canceled && !s'.canceled
    requires Does(a, s, s') && a != ActObserve && a != ActStart
    ensures Budget(s) + (if Spends(s, s') then 1 else 0) <= Budget(s')
  {
  }

  lemma StepPaysForItself(s: Sys, s': Sys)
    requires Inv(s) && Inv(s') && Step(s, s')
    ensures Budget(s) + (if Spends(s, s') then 1 else 0) <= Budget(s')
  {
    var a :| Does(a, s, s');
    if s.canceled {
      StepGrows(s, s');
    } else if s'.canceled {
      KeepsDefinition(s, s');
      CancelIsPaid(s, s');
    } else {
      match a
      case ActObserve => ObserveIsFree(s, s');
      case ActStart => StartPodPays(s, s');
      case _ => OtherwisePays(a, s, s');
    }
  }

  lemma KeepsDefinition(s: Sys, s': Sys)
    requires Step(s, s') && s.canceled != s'.canceled
    ensures s'.pods == s.pods
  {
    var a :| Does(a, s, s');
  }

  lemma {:induction false} SpentWithinBudget(tr: seq<Sys>)
    requires Run(tr)
    ensures SpentCount(tr) <= Budget(tr[|tr| - 1])
  {
    hide Inv, Spends;
    if |tr| == 1 {
      InitialBudget(tr[0]);
    } else {
      var last := |tr| - 1;
      RunPrefix(tr, last);
      SpentWithinBudget(tr[..last]);
      RunKeepsInv(tr, last - 1);
      RunKeepsInv(tr, last);
      RunStepPays(tr, last - 1);
    }
  }

  lemma InitialBudget(s: Sys)
    requires Init(s)
    ensures Budget(s) == 0
  {
  }

  lemma RunStepPays(tr: seq<Sys>, i: nat)
    requires Run(tr) && i + 1 < |tr| && Inv(tr[i]) && Inv(tr[i + 1])
    ensures Budget(tr[i]) + (if Spends(tr[i], tr[i + 1]) then 1 else 0) <= Budget(tr[i + 1])
  {
    assert Follows(tr, i);
    StepPaysForItself(tr[i], tr[i + 1]);
  }

  lemma RunPrefix(tr: seq<Sys>, k: nat)
    requires Run(tr) && 0 < k <= |tr|
    ensures Run(tr[..k])
  {
    forall i | 0 <= i < k - 1
      ensures Follows(tr[..k], i)
    {
      assert Follows(tr, i);
    }
  }

  /** With n defined pods at most n + 6 reconciles do anything but wait, the cancelling one included. */
  lemma TerminationBound(tr: seq<Sys>)
    requires Run(tr)
    ensures var s := tr[|tr| - 1];
            && SpentCount(tr) <= |s.pods| + 6
            && (!s.canceled ==> SpentCount(tr) <= |s.pods| + 5)
  {
    SpentWithinBudget(tr);
    RunKeepsInv(tr, |tr| - 1);
  }
}
