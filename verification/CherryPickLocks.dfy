/**
 The two-level locking of the cherrypicker's `handle`: a map lock guards the table of request locks,
 and one lock per request guards the cherry-pick itself.  Any number of concurrent calls take their
 steps in any order.
 */
module CherryPickLocks {
  import opened Wrappers

  datatype Request = Request(org: string, repo: string, pr: int, targetBranch: string)

  /** Where a call of `handle` stands; `lock` is the request lock it has fetched. */
  datatype Pc =
    | Entering
    | Checking              // holds the map lock
    | Fetching              // holds the map lock, the request has a lock
    | Leaving(lock: nat)    // holds the map lock, about to release it
    | Waiting(lock: nat)
    | Critical(lock: nat)
    | Done

  /** `holder[l]` is the call that holds request lock l. */
  datatype State = State(
    requests: seq<Request>,
    pcs: seq<Pc>,
    mapHolder: Option<nat>,
    lockMap: map<Request, nat>,
    holder: seq<Option<nat>>)

  ghost predicate Init(s: State) {
    && |s.pcs| == |s.requests|
    && (forall t :: 0 <= t < |s.pcs| ==> s.pcs[t] == Entering)
    && s.mapHolder == None && s.lockMap == map[] && s.holder == []
  }

  function At(s: State, t: nat, pc: Pc): State
    requires t < |s.pcs|
  {
    s.(pcs := s.pcs[t := pc])
  }

  /** Call t can take a step: it is not finished and not blocked on a lock. */
  predicate Enabled(s: State, t: nat) {
    && t < |s.pcs| && t < |s.requests|
    && match s.pcs[t]
       case Entering => s.mapHolder == None
       case Checking => true
       case Fetching => s.requests[t] in s.lockMap
       case Leaving(l) => true
       case Waiting(l) => l < |s.holder| && s.holder[l] == None
       case Critical(l) => l < |s.holder|
       case Done => false
  }

  function Next(s: State, t: nat): State
    requires Enabled(s, t)
  {
    match s.pcs[t]
    case Entering => At(s, t, Checking).(mapHolder := Some(t))
    case Checking =>
      if s.requests[t] in s.lockMap then At(s, t, Fetching)
      else At(s, t, Fetching).(lockMap := s.lockMap[s.requests[t] := |s.holder|], holder := s.holder + [None])
    case Fetching => At(s, t, Leaving(s.lockMap[s.requests[t]]))
    case Leaving(l) => At(s, t, Waiting(l)).(mapHolder := None)
    case Waiting(l) => At(s, t, Critical(l)).(holder := s.holder[l := Some(t)])
    case Critical(l) => At(s, t, Done).(holder := s.holder[l := None])
  }

  predicate HoldsMap(pc: Pc) {
    pc.Checking? || pc.Fetching? || pc.Leaving?
  }

  predicate HasLock(pc: Pc) {
    pc.Leaving? || pc.Waiting? || pc.Critical?
  }

  /** Exactly the holder of the map lock is between taking and releasing it. */
  ghost predicate MapLocked(s: State) {
    && (s.mapHolder.Some? ==> s.mapHolder.value < |s.pcs|)
    && forall t :: 0 <= t < |s.pcs| ==> (HoldsMap(s.pcs[t]) <==> s.mapHolder == Some(t))
  }

  /** Different requests have different locks. */
  ghost predicate Table(s: State) {
    && (forall r :: r in s.lockMap ==> s.lockMap[r] < |s.holder|)
    && (forall r, r' :: r in s.lockMap && r' in s.lockMap && s.lockMap[r] == s.lockMap[r'] ==> r == r')
  }

  /** A call works with the lock of its request. */
  ghost predicate Fetched(s: State)
    requires |s.pcs| == |s.requests|
  {
    forall t :: 0 <= t < |s.pcs| && (HasLock(s.pcs[t]) || s.pcs[t].Fetching?) ==>
      && s.requests[t] in s.lockMap
      && (HasLock(s.pcs[t]) ==> s.pcs[t].lock == s.lockMap[s.requests[t]])
  }

  /** Exactly the holder of a request lock is in its critical section. */
  ghost predicate Held(s: State) {
    && (forall l :: 0 <= l < |s.holder| && s.holder[l].Some? ==>
          s.holder[l].value < |s.pcs| && s.pcs[s.holder[l].value] == Critical(l))
    && (forall t :: 0 <= t < |s.pcs| && s.pcs[t].Critical? ==>
          s.pcs[t].lock < |s.holder| && s.holder[s.pcs[t].lock] == Some(t))
  }

  ghost predicate Inv(s: State) {
    |s.pcs| == |s.requests| && MapLocked(s) && Table(s) && Fetched(s) && Held(s)
  }

  lemma StepKeepsTable(s: State, t: nat)
    requires Table(s) && Enabled(s, t)
    ensures Table(Next(s, t))
  {
  }

  lemma StepKeepsMapLocked(s: State, t: nat)
    requires MapLocked(s) && Enabled(s, t)
    ensures MapLocked(Next(s, t))
  {
  }

  lemma StepKeepsFetched(s: State, t: nat)
    requires |s.pcs| == |s.requests| && Fetched(s) && Enabled(s, t)
    ensures |Next(s, t).pcs| == |Next(s, t).requests| && Fetched(Next(s, t))
  {
  }

  lemma StepKeepsHeld(s: State, t: nat)
    requires Held(s) && Enabled(s, t)
    ensures Held(Next(s, t))
  {
    var s' := Next(s, t);
    forall l | 0 <= l < |s'.holder| && s'.holder[l].Some?
      ensures s'.holder[l].value < |s'.pcs| && s'.pcs[s'.holder[l].value] == Critical(l)
    {
      if l < |s.holder| && s.holder[l].Some? {
        assert s.pcs[s.holder[l].value] == Critical(l);
      }
    }
  }

  lemma StepKeepsInv(s: State, t: nat)
    requires Inv(s) && Enabled(s, t)
    ensures Inv(Next(s, t))
  {
    hide Next, Table, MapLocked, Fetched, Held;
    StepKeepsTable(s, t);
    StepKeepsMapLocked(s, t);
    StepKeepsFetched(s, t);
    StepKeepsHeld(s, t);
  }

  // ---------- Runs ----------

  /** The state after the given calls have taken their steps in the given order. */
  ghost predicate Schedule(s: State, order: seq<nat>)
    decreases |order|
  {
    order == [] || (Enabled(s, order[0]) && Schedule(Next(s, order[0]), order[1..]))
  }

  ghost function After(s: State, order: seq<nat>): State
    requires Schedule(s, order)
    decreases |order|
  {
    if order == [] then s else After(Next(s, order[0]), order[1..])
  }

  lemma {:induction false} ScheduleKeepsInv(s: State, order: seq<nat>)
    requires Inv(s) && Schedule(s, order)
    ensures Inv(After(s, order))
    decreases |order|
  {
    if order == [] {
    } else {
      StepKeepsInv(s, order[0]);
      ScheduleKeepsInv(Next(s, order[0]), order[1..]);
    }
  }

  /** In every reachable state at most one call is in the critical section of a request. */
  lemma MutualExclusion(s: State, order: seq<nat>, t: nat, u: nat)
    requires Init(s) && Schedule(s, order)
    requires var e := After(s, order);
             && t < |e.pcs| && u < |e.pcs| && e.pcs[t].Critical? && e.pcs[u].Critical?
             && t < |e.requests| && u < |e.requests| && e.requests[t] == e.requests[u]
    ensures t == u
  {
    ScheduleKeepsInv(s, order);
  }

  /** A waiting call is blocked only by a call for the very same request that is in its critical section. */
  lemma BlockedBySameRequest(s: State, order: seq<nat>, t: nat) returns (u: nat)
    requires Init(s) && Schedule(s, order)
    requires var e := After(s, order); t < |e.pcs| && e.pcs[t].Waiting? && !Enabled(e, t)
    ensures var e := After(s, order);
            && u < |e.pcs| && u != t && |e.requests| == |e.pcs|
            && e.pcs[u].Critical? && e.requests[u] == e.requests[t] && Enabled(e, u)
  {
    ScheduleKeepsInv(s, order);
    var e := After(s, order);
    u := e.holder[e.pcs[t].lock].value;
  }

  /** Once a request has a lock it keeps this lock. */
  lemma {:induction false} LockNeverReplaced(s: State, order: seq<nat>, r: Request)
    requires Inv(s) && Schedule(s, order) && r in s.lockMap
    ensures r in After(s, order).lockMap && After(s, order).lockMap[r] == s.lockMap[r]
    decreases |order|
  {
    if order == [] {
    } else {
      StepKeepsInv(s, order[0]);
      LockNeverReplaced(Next(s, order[0]), order[1..], r);
    }
  }

  /** No reachable state is deadlocked: while a call is unfinished, some call can take a step. */
  lemma NoDeadlock(s: State, order: seq<nat>, t: nat) returns (u: nat)
    requires Init(s) && Schedule(s, order)
    requires t < |After(s, order).pcs| && After(s, order).pcs[t] != Done
    ensures Enabled(After(s, order), u)
  {
    ScheduleKeepsInv(s, order);
    var e := After(s, order);
    if Enabled(e, t) {
      u := t;
    } else if e.pcs[t].Waiting? {
      u := e.holder[e.pcs[t].lock].value;
    } else {
      u := e.mapHolder.value;
    }
  }

  // ---------- Every call finishes ----------

  function Remaining(pc: Pc): nat {
    match pc
    case Entering => 6
    case Checking => 5
    case Fetching => 4
    case Leaving(_) => 3
    case Waiting(_) => 2
    case Critical(_) => 1
    case Done => 0
  }

  function Work(pcs: seq<Pc>): nat {
    if pcs == [] then 0 else Remaining(pcs[0]) + Work(pcs[1..])
  }

  lemma {:induction false} WorkOfUpdate(pcs: seq<Pc>, t: nat, pc: Pc)
    requires t < |pcs|
    ensures Work(pcs[t := pc]) == Work(pcs) - Remaining(pcs[t]) + Remaining(pc)
  {
    if t == 0 {
      assert pcs[t := pc][1..] == pcs[1..];
    } else {
      assert pcs[t := pc][1..] == pcs[1..][t - 1 := pc];
      WorkOfUpdate(pcs[1..], t - 1, pc);
    }
  }

  lemma {:induction false} ScheduleDoesWork(s: State, order: seq<nat>)
    requires Schedule(s, order)
    ensures Work(After(s, order).pcs) == Work(s.pcs) - |order|
    decreases |order|
  {
    if order == [] {
    } else {
      var s' := Next(s, order[0]);
      WorkOfUpdate(s.pcs, order[0], s'.pcs[order[0]]);
      assert s'.pcs == s.pcs[order[0] := s'.pcs[order[0]]];
      ScheduleDoesWork(s', order[1..]);
    }
  }

  lemma {:induction false} InitialWork(pcs: seq<Pc>)
    requires forall t :: 0 <= t < |pcs| ==> pcs[t] == Entering
    ensures Work(pcs) == 6 * |pcs|
  {
    if pcs == [] {
    } else {
      InitialWork(pcs[1..]);
    }
  }

  lemma {:induction false} NoWorkLeft(pcs: seq<Pc>)
    ensures Work(pcs) == 0 <==> forall t :: 0 <= t < |pcs| ==> pcs[t] == Done
  {
    if pcs == [] {
    } else {
      NoWorkLeft(pcs[1..]);
      assert forall t :: 0 < t < |pcs| ==> pcs[t] == pcs[1..][t - 1];
    }
  }

  /**
   Whatever the scheduling, n calls take at most 6 * n steps in all, and a schedule that cannot be
   extended has finished every one of them.
   */
  lemma EveryCallFinishes(s: State, order: seq<nat>)
    requires Init(s) && Schedule(s, order)
    ensures |order| <= 6 * |s.requests|
    ensures |order| == 6 * |s.requests| <==> forall t :: 0 <= t < |After(s, order).pcs| ==> After(s, order).pcs[t] == Done
    ensures (forall u: nat :: !Enabled(After(s, order), u)) ==> |order| == 6 * |s.requests|
  {
    var e := After(s, order);
    ScheduleDoesWork(s, order);
    InitialWork(s.pcs);
    NoWorkLeft(e.pcs);
    if |order| != 6 * |s.requests| {
      var t :| 0 <= t < |e.pcs| && e.pcs[t] != Done;
      var u := NoDeadlock(s, order, t);
    }
  }
}
