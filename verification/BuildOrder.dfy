/** What the build groups are for, proved of every history of the image-builder reconciler. */
module BuildOrder {
  import opened BuildController
  import opened BuildMachine
  import opened BuildTheorems

  ghost predicate HasSucceeded(s: Sys, pod: BuildPod) {
    pod.name in s.cluster.actual && s.cluster.actual[pod.name] == Succeeded
  }

  /** A state of the history with pods has the pods that the options ask for. */
  lemma HistoryHasDefinition(r: BuildReconciler, i: nat)
    requires r.Valid() && i < |r.trace| && r.trace[i].pods != []
    ensures r.trace[i].pods == Definition(r.options)
  {
    hide Definition, Run;
    RunGrows(r.trace, i, |r.trace| - 1);
  }

  /** In a list of pods with distinct names a name says where its pod is. */
  lemma SamePlace(pods: seq<BuildPod>, j: nat, k: nat)
    requires DistinctNames(pods) && j < |pods| && k < |pods| && pods[j].name == pods[k].name
    ensures j == k
  {
  }

  lemma HistoryIsDistinct(r: BuildReconciler)
    requires r.Valid()
    ensures DistinctNames(Definition(r.options))
  {
    hide Definition, Run;
  }

  /**
   Whenever the pod of a target comes into existence, the pod that clones the repository has really
   succeeded and, with a cache, so has the pod of the variant's first target, unless it is that pod.
   */
  lemma TargetsWait(r: BuildReconciler, i: nat, v: nat, t: nat)
    requires r.Valid() && i + 1 < |r.trace| && v < |r.options.variants| && t < |r.options.targets|
    requires Place(r.options, v, t) < |Definition(r.options)|
    requires var name := Definition(r.options)[Place(r.options, v, t)].name;
             name !in r.trace[i].cluster.actual && name in r.trace[i + 1].cluster.actual
    ensures HasSucceeded(r.trace[i], Definition(r.options)[0])
    ensures r.options.useCache && t > 0 ==> HasSucceeded(r.trace[i], Definition(r.options)[Place(r.options, v, 0)])
  {
    hide Run, Boundary, Definition;
    var o := r.options;
    GroupBarrier(r.trace, i, Definition(o)[Place(o, v, t)].name);
    HistoryHasDefinition(r, i);
    GroupsOrderTheBuild(o, v, t);
    HistoryIsDistinct(r);
    SamePlace(Definition(o), |r.trace[i].cluster.log|, Place(o, v, t));
  }
}
