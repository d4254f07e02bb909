/**
 Dispatch of cherry-pick requests when a pull request is merged or labelled: which target branches
 are handled, on whose behalf, and with which chain, whatever the iteration order of the Go maps.
 */
module CherryPickDispatch {
  import opened Wrappers

  /** A comment with the commands found in it: target branch to chained branches. */
  datatype Comment = Comment(author: string, commands: map<string, seq<string>>)

  datatype EventAction = Opened | Closed | Labeled | OtherAction

  datatype Event = Event(action: EventAction, merged: bool, hasMergeSHA: bool, author: string, base: string,
                         bodyCommands: map<string, seq<string>>)

  datatype Config = Config(labelPrefix: string, allowAll: bool)

  /** What GitHub answers; None is a failed request. */
  datatype Answers = Answers(comments: Option<seq<Comment>>, labels: Option<seq<string>>, trusted: Option<seq<string>>)

  /** Origin of a request: a comment (0 is the description), or None for a label. */
  datatype Call = Call(requestor: string, origin: Option<nat>, target: string, chain: seq<string>)

  datatype Reply = Reply(requestor: string, origin: Option<nat>)

  datatype Outcome =
    | Ignored
    | CommentsFailed | LabelsFailed | TrustFailed
    | Dispatched(calls: seq<Call>, replies: seq<Reply>, failures: nat)

  type Requests = map<string, map<string, Option<nat>>>

  // ---------- What was requested ----------

  /** The last of the first n comments in which u asks for branch b. */
  function LastComment(all: seq<Comment>, n: nat, u: string, b: string): Option<nat>
    requires n <= |all|
  {
    if n == 0 then None
    else if all[n - 1].author == u && b in all[n - 1].commands then Some(n - 1)
    else LastComment(all, n - 1, u, b)
  }

  /** The last of the first n comments, by anybody, that gives branch b a chain. */
  function LastChain(all: seq<Comment>, n: nat, b: string): Option<nat>
    requires n <= |all|
  {
    if n == 0 then None
    else if b in all[n - 1].commands && all[n - 1].commands[b] != [] then Some(n - 1)
    else LastChain(all, n - 1, b)
  }

  /** User u asks for branch b in a comment, or is the author and a label asks for it. */
  predicate Asks(all: seq<Comment>, labels: seq<string>, author: string, prefix: string, u: string, b: string) {
    LastComment(all, |all|, u, b).Some? || (u == author && prefix + b in labels)
  }

  /** Where the request comes from; a label takes precedence over the author's comments. */
  function Origin(all: seq<Comment>, labels: seq<string>, author: string, prefix: string, u: string, b: string): Option<nat> {
    if u == author && prefix + b in labels then None else LastComment(all, |all|, u, b)
  }

  function Chain(all: seq<Comment>, b: string): seq<string> {
    match LastChain(all, |all|, b)
    case Some(i) => LastChainFound(all, |all|, b); all[i].commands[b]
    case None => []
  }

  lemma {:induction false} LastCommentFound(all: seq<Comment>, n: nat, u: string, b: string)
    requires n <= |all|
    ensures var last := LastComment(all, n, u, b);
            last.Some? ==> last.value < n && all[last.value].author == u && b in all[last.value].commands
    ensures forall i :: 0 <= i < n && all[i].author == u && b in all[i].commands ==>
              LastComment(all, n, u, b).Some? && i <= LastComment(all, n, u, b).value
  {
    if n == 0 {
    } else {
      LastCommentFound(all, n - 1, u, b);
    }
  }

  lemma {:induction false} LastChainFound(all: seq<Comment>, n: nat, b: string)
    requires n <= |all|
    ensures var last := LastChain(all, n, b);
            last.Some? ==> last.value < n && b in all[last.value].commands && all[last.value].commands[b] != []
    ensures forall i :: 0 <= i < n && b in all[i].commands && all[i].commands[b] != [] ==>
              LastChain(all, n, b).Some? && i <= LastChain(all, n, b).value
  {
    if n == 0 {
    } else {
      LastChainFound(all, n - 1, b);
    }
  }

  predicate Trusts(config: Config, logins: seq<string>, u: string) {
    config.allowAll || u in logins
  }

  // ---------- Collecting the requests ----------

  ghost predicate Entry(m: Requests, u: string, b: string) {
    u in m && b in m[u]
  }

  /** The nested maps hold exactly the comments of the first n, with branch `b` of comment n done iff b !in todo. */
  ghost predicate Collected(all: seq<Comment>, n: nat, todo: set<string>, m: Requests)
    requires n < |all|
  {
    && (forall u, b ::
          var last := LastComment(all, if b in todo then n else n + 1, u, b);
          (Entry(m, u, b) <==> last.Some?) && (Entry(m, u, b) ==> m[u][b] == last))
    && (forall u :: u in m ==> m[u] != map[])
  }

  ghost predicate CollectedAll(all: seq<Comment>, n: nat, m: Requests)
    requires n <= |all|
  {
    && (forall u, b ::
          var last := LastComment(all, n, u, b);
          (Entry(m, u, b) <==> last.Some?) && (Entry(m, u, b) ==> m[u][b] == last))
    && (forall u :: u in m ==> m[u] != map[])
  }

  ghost predicate ChainsOf(all: seq<Comment>, n: nat, m: map<string, seq<string>>)
    requires n <= |all|
  {
    forall b ::
      var last := LastChain(all, n, b);
      (b in m <==> last.Some?) && (b in m ==> last.value < |all| && b in all[last.value].commands && m[b] == all[last.value].commands[b])
  }

  ghost predicate ChainsUpTo(all: seq<Comment>, n: nat, todo: set<string>, m: map<string, seq<string>>)
    requires n < |all|
  {
    forall b ::
      var last := LastChain(all, if b in todo then n else n + 1, b);
      (b in m <==> last.Some?) && (b in m ==> last.value < |all| && b in all[last.value].commands && m[b] == all[last.value].commands[b])
  }

  function Enter(m: Requests, u: string, b: string, origin: Option<nat>): Requests {
    m[u := (if u in m then m[u] else map[])[b := origin]]
  }

  lemma EnterEntry(m: Requests, u: string, b: string, origin: Option<nat>)
    ensures var m' := Enter(m, u, b, origin);
            && Entry(m', u, b) && m'[u][b] == origin
            && (forall v, c :: (v, c) != (u, b) ==> (Entry(m', v, c) <==> Entry(m, v, c)))
            && (forall v, c :: (v, c) != (u, b) && Entry(m, v, c) ==> m'[v][c] == m[v][c])
            && (forall v :: v in m' <==> v in m || v == u)
            && ((forall v :: v in m ==> m[v] != map[]) ==> forall v :: v in m' ==> m'[v] != map[])
  {
    var m' := Enter(m, u, b, origin);
    assert b in m'[u];
  }

  method CollectComments(all: seq<Comment>) returns (requests: Requests, chains: map<string, seq<string>>)
    ensures CollectedAll(all, |all|, requests)
    ensures ChainsOf(all, |all|, chains)
  {
    requests, chains := map[], map[];
    for n := 0 to |all|
      invariant CollectedAll(all, n, requests)
      invariant ChainsOf(all, n, chains)
    {
      requests, chains := CollectCommands(all, n, requests, chains);
    }
  }

  method CollectCommands(all: seq<Comment>, n: nat, requests: Requests, chains: map<string, seq<string>>)
      returns (requests': Requests, chains': map<string, seq<string>>)
    requires n < |all| && CollectedAll(all, n, requests) && ChainsOf(all, n, chains)
    ensures CollectedAll(all, n + 1, requests')
    ensures ChainsOf(all, n + 1, chains')
  {
    hide Collected, CollectedAll, ChainsOf, ChainsUpTo, Enter;
    var comment := all[n];
    var todo := comment.commands.Keys;
    requests', chains' := requests, chains;
    StartCommands(all, n, requests, chains);
    while todo != {}
      invariant todo <= comment.commands.Keys
      invariant Collected(all, n, todo, requests')
      invariant ChainsUpTo(all, n, todo, chains')
      decreases |todo|
    {
      var target :| target in todo;
      var chained := comment.commands[target];
      CollectOne(all, n, todo, requests', target);
      ChainOne(all, n, todo, chains', target);
      requests' := Enter(requests', comment.author, target, Some(n));
      if |chained| > 0 {
        chains' := chains'[target := chained];
      }
      todo := todo - {target};
    }
    EndCommands(all, n, requests', chains');
  }

  lemma StartCommands(all: seq<Comment>, n: nat, m: Requests, chains: map<string, seq<string>>)
    requires n < |all| && CollectedAll(all, n, m) && ChainsOf(all, n, chains)
    ensures Collected(all, n, all[n].commands.Keys, m) && ChainsUpTo(all, n, all[n].commands.Keys, chains)
  {
  }

  lemma EndCommands(all: seq<Comment>, n: nat, m: Requests, chains: map<string, seq<string>>)
    requires n < |all| && Collected(all, n, {}, m) && ChainsUpTo(all, n, {}, chains)
    ensures CollectedAll(all, n + 1, m) && ChainsOf(all, n + 1, chains)
  {
  }

  lemma ChainOne(all: seq<Comment>, n: nat, todo: set<string>, chains: map<string, seq<string>>, b: string)
    requires n < |all| && ChainsUpTo(all, n, todo, chains) && b in todo && b in all[n].commands
    ensures ChainsUpTo(all, n, todo - {b},
              if |all[n].commands[b]| > 0 then chains[b := all[n].commands[b]] else chains)
  {
  }

  lemma CollectOne(all: seq<Comment>, n: nat, todo: set<string>, m: Requests, b: string)
    requires n < |all| && Collected(all, n, todo, m) && b in todo && b in all[n].commands
    ensures Collected(all, n, todo - {b}, Enter(m, all[n].author, b, Some(n)))
  {
    var u := all[n].author;
    EnterEntry(m, u, b, Some(n));
    var m' := Enter(m, u, b, Some(n));
    forall v, c
      ensures var last := LastComment(all, if c in todo - {b} then n else n + 1, v, c);
              (Entry(m', v, c) <==> last.Some?) && (Entry(m', v, c) ==> m'[v][c] == last)
    {
      if (v, c) != (u, b) {
        assert Entry(m', v, c) <==> Entry(m, v, c);
      }
    }
  }

  // ---------- Labels and trust ----------

  /** The maps once the labels have been credited to the author. */
  ghost predicate Labelled(all: seq<Comment>, labels: seq<string>, author: string, prefix: string, m: Requests) {
    forall u, b ::
      && (Entry(m, u, b) <==> Asks(all, labels, author, prefix, u, b))
      && (Entry(m, u, b) ==> m[u][b] == Origin(all, labels, author, prefix, u, b))
  }

  method AddLabels(all: seq<Comment>, labels: seq<string>, author: string, prefix: string, requests: Requests)
      returns (requests': Requests, found: bool)
    requires CollectedAll(all, |all|, requests)
    ensures Labelled(all, labels, author, prefix, requests')
    ensures found <==> HasLabel(labels, prefix)
  {
    requests', found := requests, false;
    if author !in requests' {
      requests' := requests'[author := map[]];
    }
    assert labels[..0] == [];
    for i := 0 to |labels|
      invariant Labelled(all, labels[..i], author, prefix, requests')
      invariant author in requests'
      invariant found <==> exists k :: 0 <= k < i && prefix <= labels[k]
    {
      assert labels[..i + 1] == labels[..i] + [labels[i]];
      if prefix <= labels[i] {
        LabelOne(all, labels, i, author, prefix, requests');
        requests' := requests'[author := requests'[author][labels[i][|prefix|..] := None]];
        found := true;
      } else {
        LabelSkipped(all, labels, i, author, prefix, requests');
      }
    }
    assert labels[..|labels|] == labels;
  }

  lemma LabelSkipped(all: seq<Comment>, labels: seq<string>, i: nat, author: string, prefix: string, m: Requests)
    requires i < |labels| && Labelled(all, labels[..i], author, prefix, m) && !(prefix <= labels[i])
    ensures Labelled(all, labels[..i + 1], author, prefix, m)
  {
    forall b
      ensures prefix + b in labels[..i + 1] <==> prefix + b in labels[..i]
    {
      assert prefix <= prefix + b;
      assert labels[..i + 1] == labels[..i] + [labels[i]];
    }
  }

  lemma LabelOne(all: seq<Comment>, labels: seq<string>, i: nat, author: string, prefix: string, m: Requests)
    requires i < |labels| && Labelled(all, labels[..i], author, prefix, m) && author in m && prefix <= labels[i]
    ensures Labelled(all, labels[..i + 1], author, prefix, m[author := m[author][labels[i][|prefix|..] := None]])
  {
    var b0 := labels[i][|prefix|..];
    assert labels[i] == prefix + b0;
    var m' := m[author := m[author][b0 := None]];
    forall u, b
      ensures Entry(m', u, b) <==> Asks(all, labels[..i + 1], author, prefix, u, b)
      ensures Entry(m', u, b) ==> m'[u][b] == Origin(all, labels[..i + 1], author, prefix, u, b)
    {
      assert labels[..i + 1] == labels[..i] + [labels[i]];
      assert prefix + b == labels[i] <==> b == b0 by {
        assert (prefix + b)[|prefix|..] == b;
      }
      assert Entry(m, u, b) <==> Asks(all, labels[..i], author, prefix, u, b);
      assert Entry(m', u, b) <==> Entry(m, u, b) || (u == author && b == b0);
    }
  }

  /** Drops the requests of everybody who is not trusted. */
  method DropUntrusted(requests: Requests, logins: seq<string>) returns (requests': Requests)
    ensures forall u :: u in requests' <==> u in requests && u in logins
    ensures forall u :: u in requests' ==> requests'[u] == requests[u]
  {
    requests' := requests;
    var todo := requests.Keys;
    while todo != {}
      invariant todo <= requests.Keys
      invariant forall u :: u in requests' <==> u in requests && (u in todo || u in logins)
      invariant forall u :: u in requests' ==> requests'[u] == requests[u]
      decreases |todo|
    {
      var requestor :| requestor in todo;
      if requestor !in logins {
        requests' := requests' - {requestor};
      }
      todo := todo - {requestor};
    }
  }

  // ---------- Dispatching ----------

  ghost function Failures(calls: seq<Call>, handleFails: Call -> bool): nat {
    if calls == [] then 0
    else Failures(calls[..|calls| - 1], handleFails) + (if handleFails(calls[|calls| - 1]) then 1 else 0)
  }

  lemma OneMoreCall(calls: seq<Call>, call: Call, handleFails: Call -> bool)
    ensures Failures(calls + [call], handleFails) == Failures(calls, handleFails) + if handleFails(call) then 1 else 0
  {
    assert (calls + [call])[..|calls|] == calls;
  }

  ghost predicate Handles(calls: seq<Call>, b: string) {
    exists i :: 0 <= i < |calls| && calls[i].target == b
  }

  /** No target branch is handled twice. */
  ghost predicate Distinct(calls: seq<Call>) {
    forall i, j :: 0 <= i < j < |calls| ==> calls[i].target != calls[j].target
  }

  /** Every call answers an entry of the maps and passes on its origin and the chain of its branch. */
  ghost predicate Justified(m: Requests, chains: map<string, seq<string>>, base: string, calls: seq<Call>) {
    forall i :: 0 <= i < |calls| ==>
      var c := calls[i];
      && Entry(m, c.requestor, c.target) && c.target != base
      && c.origin == m[c.requestor][c.target]
      && c.chain == if c.target in chains then chains[c.target] else []
  }

  /** Visited so far: all requests of `users`, and of u those for branches not in `left`. */
  predicate Visited(users: set<string>, u: string, left: set<string>, v: string, b: string) {
    v in users || (v == u && b !in left)
  }

  ghost predicate Complete(m: Requests, base: string, users: set<string>, u: string, left: set<string>, calls: seq<Call>) {
    forall v, b :: Entry(m, v, b) && b != base && Visited(users, u, left, v, b) ==> Handles(calls, b)
  }

  /** A reply goes to each visited requestor of the base branch, and to nobody twice. */
  ghost predicate Replied(m: Requests, base: string, users: set<string>, u: string, left: set<string>, replies: seq<Reply>) {
    && (forall i, j :: 0 <= i < j < |replies| ==> replies[i].requestor != replies[j].requestor)
    && (forall i :: 0 <= i < |replies| ==> Entry(m, replies[i].requestor, base) && Visited(users, u, left, replies[i].requestor, base))
    && (forall v :: Entry(m, v, base) && Visited(users, u, left, v, base) ==> Reply(v, m[v][base]) in replies)
  }

  ghost predicate Progress(m: Requests, chains: map<string, seq<string>>, base: string, handleFails: Call -> bool,
                           users: set<string>, u: string, left: set<string>,
                           calls: seq<Call>, replies: seq<Reply>, failures: nat) {
    && Distinct(calls) && Justified(m, chains, base, calls)
    && Complete(m, base, users, u, left, calls)
    && Replied(m, base, users, u, left, replies)
    && failures == Failures(calls, handleFails)
  }

  lemma CallOne(m: Requests, chains: map<string, seq<string>>, base: string, users: set<string>, u: string,
                left: set<string>, calls: seq<Call>, b: string)
    requires Distinct(calls) && Justified(m, chains, base, calls) && Complete(m, base, users, u, left, calls)
    requires Entry(m, u, b) && b != base && !Handles(calls, b)
    ensures var calls' := calls + [Call(u, m[u][b], b, if b in chains then chains[b] else [])];
            && Distinct(calls') && Justified(m, chains, base, calls') && Complete(m, base, users, u, left - {b}, calls')
            && (forall c :: Handles(calls', c) <==> Handles(calls, c) || c == b)
  {
    var calls' := calls + [Call(u, m[u][b], b, if b in chains then chains[b] else [])];
    forall c
      ensures Handles(calls', c) <==> Handles(calls, c) || c == b
    {
      if Handles(calls, c) {
        var i :| 0 <= i < |calls| && calls[i].target == c;
        assert calls'[i].target == c;
      } else if c == b {
        assert calls'[|calls|].target == c;
      }
    }
  }

  lemma SkipOne(m: Requests, base: string, users: set<string>, u: string, left: set<string>, calls: seq<Call>, b: string)
    requires Complete(m, base, users, u, left, calls) && (b == base || Handles(calls, b))
    ensures Complete(m, base, users, u, left - {b}, calls)
  {
  }

  lemma ReplyOne(m: Requests, base: string, users: set<string>, u: string, left: set<string>, replies: seq<Reply>)
    requires Replied(m, base, users, u, left, replies) && u !in users && base in left && Entry(m, u, base)
    ensures Replied(m, base, users, u, left - {base}, replies + [Reply(u, m[u][base])])
  {
    var replies' := replies + [Reply(u, m[u][base])];
    forall v | Entry(m, v, base) && Visited(users, u, left - {base}, v, base)
      ensures Reply(v, m[v][base]) in replies'
    {
      if v != u {
        assert Reply(v, m[v][base]) in replies;
      }
    }
  }

  lemma NoReply(m: Requests, base: string, users: set<string>, u: string, left: set<string>, replies: seq<Reply>, b: string)
    requires Replied(m, base, users, u, left, replies) && b != base
    ensures Replied(m, base, users, u, left - {b}, replies)
  {
  }

  /** All requests of one requestor, in the arbitrary order of the inner map. */
  method HandleRequestor(m: Requests, chains: map<string, seq<string>>, base: string, handleFails: Call -> bool,
                         ghost users: set<string>, requestor: string,
                         handled: set<string>, calls: seq<Call>, replies: seq<Reply>, failures: nat)
      returns (handled': set<string>, calls': seq<Call>, replies': seq<Reply>, failures': nat)
    requires requestor in m && requestor !in users
    requires Progress(m, chains, base, handleFails, users, requestor, m[requestor].Keys, calls, replies, failures)
    requires forall b :: b in handled <==> Handles(calls, b)
    ensures Progress(m, chains, base, handleFails, users, requestor, {}, calls', replies', failures')
    ensures forall b :: b in handled' <==> Handles(calls', b)
  {
    hide Distinct, Justified, Complete, Replied, Handles, Visited, Failures;
    handled', calls', replies', failures' := handled, calls, replies, failures;
    var branches := m[requestor];
    var todo := branches.Keys;
    while todo != {}
      invariant todo <= branches.Keys
      invariant Progress(m, chains, base, handleFails, users, requestor, todo, calls', replies', failures')
      invariant forall b :: b in handled' <==> Handles(calls', b)
      decreases |todo|
    {
      var target :| target in todo;
      assert Entry(m, requestor, target);
      if target in handled' {
        SkipOne(m, base, users, requestor, todo, calls', target);
        NotBase(m, chains, base, calls', target);
        NoReply(m, base, users, requestor, todo, replies', target);
      } else if target == base {
        SkipOne(m, base, users, requestor, todo, calls', target);
        ReplyOne(m, base, users, requestor, todo, replies');
        replies' := replies' + [Reply(requestor, branches[target])];
      } else {
        CallOne(m, chains, base, users, requestor, todo, calls', target);
        NoReply(m, base, users, requestor, todo, replies', target);
        handled' := handled' + {target};
        var call := Call(requestor, branches[target], target, if target in chains then chains[target] else []);
        OneMoreCall(calls', call, handleFails);
        calls' := calls' + [call];
        if handleFails(call) {
          failures' := failures' + 1;
        }
      }
      todo := todo - {target};
    }
  }

  lemma NotBase(m: Requests, chains: map<string, seq<string>>, base: string, calls: seq<Call>, b: string)
    requires Justified(m, chains, base, calls) && Handles(calls, b)
    ensures b != base
  {
  }

  /** What has been achieved when the requests of exactly the given users have been visited. */
  ghost predicate Between(m: Requests, chains: map<string, seq<string>>, base: string, handleFails: Call -> bool,
                          users: set<string>, calls: seq<Call>, replies: seq<Reply>, failures: nat) {
    && Distinct(calls) && Justified(m, chains, base, calls)
    && (forall v, b :: Entry(m, v, b) && b != base && v in users ==> Handles(calls, b))
    && (forall i, j :: 0 <= i < j < |replies| ==> replies[i].requestor != replies[j].requestor)
    && (forall i :: 0 <= i < |replies| ==> Entry(m, replies[i].requestor, base) && replies[i].requestor in users)
    && (forall v :: Entry(m, v, base) && v in users ==> Reply(v, m[v][base]) in replies)
    && failures == Failures(calls, handleFails)
  }

  lemma NextRequestor(m: Requests, chains: map<string, seq<string>>, base: string, handleFails: Call -> bool,
                      users: set<string>, u: string, calls: seq<Call>, replies: seq<Reply>, failures: nat)
    requires u in m && u !in users && Between(m, chains, base, handleFails, users, calls, replies, failures)
    ensures Progress(m, chains, base, handleFails, users, u, m[u].Keys, calls, replies, failures)
  {
    hide Distinct, Justified, Handles, Failures;
  }

  lemma RequestorDone(m: Requests, chains: map<string, seq<string>>, base: string, handleFails: Call -> bool,
                      users: set<string>, u: string, calls: seq<Call>, replies: seq<Reply>, failures: nat)
    requires Progress(m, chains, base, handleFails, users, u, {}, calls, replies, failures)
    ensures Between(m, chains, base, handleFails, users + {u}, calls, replies, failures)
  {
    hide Distinct, Justified, Handles, Failures;
    forall v, b | v in users + {u}
      ensures Visited(users, u, {}, v, b)
    {
    }
  }

  method Dispatch(m: Requests, chains: map<string, seq<string>>, base: string, handleFails: Call -> bool)
      returns (calls: seq<Call>, replies: seq<Reply>, failures: nat)
    ensures Between(m, chains, base, handleFails, m.Keys, calls, replies, failures)
  {
    calls, replies, failures := [], [], 0;
    var handled := {};
    var todo := m.Keys;
    ghost var users: set<string> := {};
    assert Between(m, chains, base, handleFails, users, calls, replies, failures);
    hide Between, Progress, Handles;
    while todo != {}
      invariant todo <= m.Keys && users == m.Keys - todo
      invariant Between(m, chains, base, handleFails, users, calls, replies, failures)
      invariant forall b :: b in handled <==> Handles(calls, b)
      decreases |todo|
    {
      var requestor :| requestor in todo;
      NextRequestor(m, chains, base, handleFails, users, requestor, calls, replies, failures);
      handled, calls, replies, failures :=
        HandleRequestor(m, chains, base, handleFails, users, requestor, handled, calls, replies, failures);
      RequestorDone(m, chains, base, handleFails, users, requestor, calls, replies, failures);
      todo := todo - {requestor};
      users := users + {requestor};
    }
    assert users == m.Keys;
  }

  // ---------- The whole event ----------

  function AllComments(event: Event, comments: seq<Comment>): seq<Comment> {
    [Comment(event.author, event.bodyCommands)] + comments
  }

  /** A merged pull request for which some comment or label asks for a cherry-pick. */
  predicate Relevant(event: Event) {
    event.action != OtherAction && event.merged && event.hasMergeSHA
  }

  predicate HasCommands(all: seq<Comment>) {
    exists i :: 0 <= i < |all| && all[i].commands != map[]
  }

  predicate HasLabel(labels: seq<string>, prefix: string) {
    exists i :: 0 <= i < |labels| && prefix <= labels[i]
  }

  predicate PassesEarlyExits(config: Config, event: Event, comments: seq<Comment>, labels: seq<string>) {
    && (HasCommands(AllComments(event, comments)) || HasLabel(labels, config.labelPrefix))
    && (event.action == Labeled ==> HasLabel(labels, config.labelPrefix))
  }

  /** Some trusted user asks for branch b. */
  ghost predicate Requested(config: Config, event: Event, comments: seq<Comment>, labels: seq<string>,
                            logins: seq<string>, b: string) {
    exists u :: Trusts(config, logins, u)
             && Asks(AllComments(event, comments), labels, event.author, config.labelPrefix, u, b)
  }

  /** Exactly the requested branches are handled, once each, for a trusted requestor and with the right chain. */
  ghost predicate RightCalls(config: Config, event: Event, comments: seq<Comment>, labels: seq<string>,
                             logins: seq<string>, calls: seq<Call>) {
    var all := AllComments(event, comments);
    && Distinct(calls)
    && (forall b :: Handles(calls, b) <==> b != event.base && Requested(config, event, comments, labels, logins, b))
    && (forall i :: 0 <= i < |calls| ==>
          var c := calls[i];
          && Trusts(config, logins, c.requestor)
          && Asks(all, labels, event.author, config.labelPrefix, c.requestor, c.target)
          && c.origin == Origin(all, labels, event.author, config.labelPrefix, c.requestor, c.target)
          && c.chain == Chain(all, c.target))
  }

  /** Exactly the trusted users who asked for the base branch get a reply, one each. */
  ghost predicate RightReplies(config: Config, event: Event, comments: seq<Comment>, labels: seq<string>,
                               logins: seq<string>, replies: seq<Reply>) {
    var all := AllComments(event, comments);
    && (forall i, j :: 0 <= i < j < |replies| ==> replies[i].requestor != replies[j].requestor)
    && (forall r :: r in replies <==>
          && Trusts(config, logins, r.requestor)
          && Asks(all, labels, event.author, config.labelPrefix, r.requestor, event.base)
          && r.origin == Origin(all, labels, event.author, config.labelPrefix, r.requestor, event.base))
  }

  lemma FoundComments(all: seq<Comment>, m: Requests)
    requires CollectedAll(all, |all|, m)
    ensures |m| != 0 <==> HasCommands(all)
  {
    if m != map[] {
      var u :| u in m;
      var b :| b in m[u];
      assert Entry(m, u, b);
      LastCommentFound(all, |all|, u, b);
    }
    if HasCommands(all) {
      var i :| 0 <= i < |all| && all[i].commands != map[];
      var b :| b in all[i].commands;
      LastCommentFound(all, |all|, all[i].author, b);
      assert Entry(m, all[i].author, b);
    }
  }

  /** The maps the dispatch starts from: the requests of trusted users. */
  ghost predicate TrustedRequests(config: Config, event: Event, comments: seq<Comment>, labels: seq<string>,
                                  logins: seq<string>, m: Requests) {
    var all := AllComments(event, comments);
    forall u, b ::
      && (Entry(m, u, b) <==> Trusts(config, logins, u) && Asks(all, labels, event.author, config.labelPrefix, u, b))
      && (Entry(m, u, b) ==> m[u][b] == Origin(all, labels, event.author, config.labelPrefix, u, b))
  }

  lemma OnlyTrusted(config: Config, event: Event, comments: seq<Comment>, labels: seq<string>, logins: seq<string>,
                    m: Requests, m': Requests)
    requires Labelled(AllComments(event, comments), labels, event.author, config.labelPrefix, m)
    requires if config.allowAll then m' == m
             else (forall u :: u in m' <==> u in m && u in logins) && (forall u :: u in m' ==> m'[u] == m[u])
    ensures TrustedRequests(config, event, comments, labels, logins, m')
  {
    hide Asks, Origin, AllComments;
    var all := AllComments(event, comments);
    forall u, b
      ensures Entry(m', u, b) <==> Trusts(config, logins, u) && Asks(all, labels, event.author, config.labelPrefix, u, b)
      ensures Entry(m', u, b) ==> m'[u][b] == Origin(all, labels, event.author, config.labelPrefix, u, b)
    {
      assert Entry(m, u, b) <==> Asks(all, labels, event.author, config.labelPrefix, u, b);
    }
  }

  lemma CallsAreRight(config: Config, event: Event, comments: seq<Comment>, labels: seq<string>, logins: seq<string>,
                      m: Requests, chains: map<string, seq<string>>, handleFails: Call -> bool,
                      calls: seq<Call>, replies: seq<Reply>, failures: nat)
    requires TrustedRequests(config, event, comments, labels, logins, m)
    requires ChainsOf(AllComments(event, comments), |AllComments(event, comments)|, chains)
    requires Between(m, chains, event.base, handleFails, m.Keys, calls, replies, failures)
    ensures RightCalls(config, event, comments, labels, logins, calls)
  {
    hide Asks, Origin, Trusts, AllComments, Distinct;
    var all := AllComments(event, comments);
    forall b
      ensures Handles(calls, b) <==> b != event.base && Requested(config, event, comments, labels, logins, b)
    {
      if Handles(calls, b) {
        var i :| 0 <= i < |calls| && calls[i].target == b;
        assert Entry(m, calls[i].requestor, b);
      }
      if b != event.base && Requested(config, event, comments, labels, logins, b) {
        var u :| Trusts(config, logins, u) && Asks(all, labels, event.author, config.labelPrefix, u, b);
        assert Entry(m, u, b);
      }
    }
    forall i | 0 <= i < |calls|
      ensures calls[i].chain == Chain(all, calls[i].target)
    {
      assert LastChain(all, |all|, calls[i].target).Some? <==> calls[i].target in chains;
    }
  }

  lemma RepliesAreRight(config: Config, event: Event, comments: seq<Comment>, labels: seq<string>, logins: seq<string>,
                        m: Requests, chains: map<string, seq<string>>, handleFails: Call -> bool,
                        calls: seq<Call>, replies: seq<Reply>, failures: nat)
    requires TrustedRequests(config, event, comments, labels, logins, m)
    requires Between(m, chains, event.base, handleFails, m.Keys, calls, replies, failures)
    ensures RightReplies(config, event, comments, labels, logins, replies)
  {
    hide Asks, Origin, Trusts, AllComments, Distinct, Justified, Handles;
    var all := AllComments(event, comments);
    forall r
      ensures r in replies <==>
        && Trusts(config, logins, r.requestor)
        && Asks(all, labels, event.author, config.labelPrefix, r.requestor, event.base)
        && r.origin == Origin(all, labels, event.author, config.labelPrefix, r.requestor, event.base)
    {
      var u := r.requestor;
      assert Entry(m, u, event.base) <==>
        Trusts(config, logins, u) && Asks(all, labels, event.author, config.labelPrefix, u, event.base);
      if r in replies {
        var i :| 0 <= i < |replies| && replies[i] == r;
        var j :| 0 <= j < |replies| && replies[j] == Reply(u, m[u][event.base]);
        assert i == j;
      }
    }
  }

  /** What a pull request event leads to, for every answer of GitHub. */
  ghost predicate RightOutcome(config: Config, event: Event, answers: Answers, handleFails: Call -> bool, outcome: Outcome) {
    if !Relevant(event) then outcome == Ignored
    else if answers.comments == None then outcome == CommentsFailed
    else if answers.labels == None then outcome == LabelsFailed
    else
      var comments, labels := answers.comments.value, answers.labels.value;
      if !PassesEarlyExits(config, event, comments, labels) then outcome == Ignored
      else if !config.allowAll && answers.trusted == None then outcome == TrustFailed
      else
        var logins := if answers.trusted.Some? then answers.trusted.value else [];
        && outcome.Dispatched?
        && RightCalls(config, event, comments, labels, logins, outcome.calls)
        && RightReplies(config, event, comments, labels, logins, outcome.replies)
        && outcome.failures == Failures(outcome.calls, handleFails)
  }

  // ---------- The outcome in terms of the event itself ----------

  /** Comment k is the user's last one that asks for the branch. */
  ghost predicate LastOfUser(comments: seq<Comment>, k: nat, u: string, b: string) {
    && k < |comments| && comments[k].author == u && b in comments[k].commands
    && forall j :: k < j < |comments| ==> !(comments[j].author == u && b in comments[j].commands)
  }

  ghost predicate UserComments(comments: seq<Comment>, u: string, b: string) {
    exists k :: 0 <= k < |comments| && comments[k].author == u && b in comments[k].commands
  }

  ghost predicate LastWithChain(comments: seq<Comment>, k: nat, b: string) {
    && k < |comments| && b in comments[k].commands && comments[k].commands[b] != []
    && forall j :: k < j < |comments| && b in comments[j].commands ==> comments[j].commands[b] == []
  }

  ghost predicate SomeChain(comments: seq<Comment>, b: string) {
    exists k :: 0 <= k < |comments| && b in comments[k].commands && comments[k].commands[b] != []
  }

  /** A trusted user asks for the branch in a comment, or is the author and the description or a label asks for it. */
  ghost predicate PlainRequest(config: Config, event: Event, comments: seq<Comment>, labels: seq<string>, logins: seq<string>,
                               u: string, b: string) {
    && (config.allowAll || u in logins)
    && (|| UserComments(comments, u, b)
        || (u == event.author && (b in event.bodyCommands || config.labelPrefix + b in labels)))
  }

  /** A label of the author's pull request comes first, then the user's last comment, then the author's description. */
  ghost predicate PlainOrigin(config: Config, event: Event, comments: seq<Comment>, labels: seq<string>, u: string, b: string,
                              origin: Option<nat>) {
    if u == event.author && config.labelPrefix + b in labels then origin == None
    else if UserComments(comments, u, b) then origin.Some? && origin.value > 0 && LastOfUser(comments, origin.value - 1, u, b)
    else origin == Some(0) && u == event.author && b in event.bodyCommands
  }

  /** The chain of the last comment, by anybody, that gives one, else that of the description. */
  ghost predicate PlainChain(event: Event, comments: seq<Comment>, b: string, chain: seq<string>) {
    if SomeChain(comments, b) then exists k :: 0 <= k < |comments| && LastWithChain(comments, k, b) && chain == comments[k].commands[b]
    else chain == if b in event.bodyCommands then event.bodyCommands[b] else []
  }

  ghost predicate PlainCalls(config: Config, event: Event, comments: seq<Comment>, labels: seq<string>, logins: seq<string>,
                             calls: seq<Call>) {
    && (forall i, j :: 0 <= i < j < |calls| ==> calls[i].target != calls[j].target)
    && (forall u, b :: b != event.base && PlainRequest(config, event, comments, labels, logins, u, b) ==> Handles(calls, b))
    && (forall i :: 0 <= i < |calls| ==> PlainCall(config, event, comments, labels, logins, calls[i]))
  }

  ghost predicate PlainCall(config: Config, event: Event, comments: seq<Comment>, labels: seq<string>, logins: seq<string>, c: Call) {
    && c.target != event.base
    && PlainRequest(config, event, comments, labels, logins, c.requestor, c.target)
    && PlainOrigin(config, event, comments, labels, c.requestor, c.target, c.origin)
    && PlainChain(event, comments, c.target, c.chain)
  }

  ghost predicate PlainReplies(config: Config, event: Event, comments: seq<Comment>, labels: seq<string>, logins: seq<string>,
                               replies: seq<Reply>) {
    && (forall i, j :: 0 <= i < j < |replies| ==> replies[i].requestor != replies[j].requestor)
    && (forall u :: PlainRequest(config, event, comments, labels, logins, u, event.base) ==>
          exists r :: r in replies && r.requestor == u)
    && (forall r :: r in replies ==>
          && PlainRequest(config, event, comments, labels, logins, r.requestor, event.base)
          && PlainOrigin(config, event, comments, labels, r.requestor, event.base, r.origin))
  }

  ghost function Failing(calls: seq<Call>, handleFails: Call -> bool): set<int> {
    set i | 0 <= i < |calls| && handleFails(calls[i])
  }

  /** What a pull request event leads to, said of the event and GitHub's answers alone. */
  ghost predicate PlainOutcome(config: Config, event: Event, answers: Answers, handleFails: Call -> bool, outcome: Outcome) {
    if !(event.action in {Opened, Closed, Labeled} && event.merged && event.hasMergeSHA) then outcome == Ignored
    else if answers.comments == None then outcome == CommentsFailed
    else if answers.labels == None then outcome == LabelsFailed
    else
      var comments, labels := answers.comments.value, answers.labels.value;
      var commented := event.bodyCommands != map[] || exists k :: 0 <= k < |comments| && comments[k].commands != map[];
      var labelled := exists i :: 0 <= i < |labels| && config.labelPrefix <= labels[i];
      if !labelled && (!commented || event.action == Labeled) then outcome == Ignored
      else if !config.allowAll && answers.trusted == None then outcome == TrustFailed
      else
        var logins := if answers.trusted.Some? then answers.trusted.value else [];
        && outcome.Dispatched?
        && PlainCalls(config, event, comments, labels, logins, outcome.calls)
        && PlainReplies(config, event, comments, labels, logins, outcome.replies)
        && outcome.failures == |Failing(outcome.calls, handleFails)|
  }

  lemma DescriptionFirst(event: Event, comments: seq<Comment>)
    ensures var all := AllComments(event, comments);
            && |all| == |comments| + 1 && all[0].author == event.author && all[0].commands == event.bodyCommands
            && (forall k :: 0 <= k < |comments| ==> all[k + 1] == comments[k])
            && (forall i :: 0 < i < |all| ==> all[i] == comments[i - 1])
  {
  }

  lemma LastOfUserIsFound(all: seq<Comment>, comments: seq<Comment>, u: string, b: string)
    requires |all| == |comments| + 1 && forall i :: 0 < i < |all| ==> all[i] == comments[i - 1]
    requires forall k :: 0 <= k < |comments| ==> all[k + 1] == comments[k]
    ensures var last := LastComment(all, |all|, u, b);
            if UserComments(comments, u, b) then last.Some? && last.value > 0 && LastOfUser(comments, last.value - 1, u, b)
            else last == if all[0].author == u && b in all[0].commands then Some(0) else None
  {
    hide LastComment;
    LastCommentFound(all, |all|, u, b);
    var last := LastComment(all, |all|, u, b);
    if UserComments(comments, u, b) {
      var k :| 0 <= k < |comments| && comments[k].author == u && b in comments[k].commands;
      assert all[k + 1] == comments[k];
      forall j | last.value - 1 < j < |comments|
        ensures !(comments[j].author == u && b in comments[j].commands)
      {
        assert all[j + 1] == comments[j];
      }
    }
  }

  lemma LastWithChainIsFound(all: seq<Comment>, comments: seq<Comment>, b: string)
    requires |all| == |comments| + 1 && forall i :: 0 < i < |all| ==> all[i] == comments[i - 1]
    requires forall k :: 0 <= k < |comments| ==> all[k + 1] == comments[k]
    ensures var last := LastChain(all, |all|, b);
            if SomeChain(comments, b) then last.Some? && last.value > 0 && LastWithChain(comments, last.value - 1, b)
            else last == if b in all[0].commands && all[0].commands[b] != [] then Some(0) else None
  {
    hide LastChain;
    LastChainFound(all, |all|, b);
    var last := LastChain(all, |all|, b);
    if SomeChain(comments, b) {
      var k :| 0 <= k < |comments| && b in comments[k].commands && comments[k].commands[b] != [];
      assert all[k + 1] == comments[k];
      forall j | last.value - 1 < j < |comments| && b in comments[j].commands
        ensures comments[j].commands[b] == []
      {
        assert all[j + 1] == comments[j];
      }
    }
  }

  lemma OriginIsPlain(config: Config, event: Event, comments: seq<Comment>, labels: seq<string>, u: string, b: string)
    ensures var all := AllComments(event, comments);
            && (Asks(all, labels, event.author, config.labelPrefix, u, b)
                <==> || UserComments(comments, u, b)
                     || (u == event.author && (b in event.bodyCommands || config.labelPrefix + b in labels)))
            && (Asks(all, labels, event.author, config.labelPrefix, u, b) ==>
                  PlainOrigin(config, event, comments, labels, u, b,
                              Origin(all, labels, event.author, config.labelPrefix, u, b)))
  {
    hide LastComment, AllComments, UserComments, LastOfUser;
    DescriptionFirst(event, comments);
    LastOfUserIsFound(AllComments(event, comments), comments, u, b);
  }

  lemma ChainIsPlain(event: Event, comments: seq<Comment>, b: string)
    ensures PlainChain(event, comments, b, Chain(AllComments(event, comments), b))
  {
    hide LastChain, AllComments, SomeChain;
    var all := AllComments(event, comments);
    DescriptionFirst(event, comments);
    LastWithChainIsFound(all, comments, b);
    var last := LastChain(all, |all|, b);
    if SomeChain(comments, b) {
      assert all[last.value] == comments[last.value - 1];
    }
  }

  lemma {:induction false} FailuresAreCounted(calls: seq<Call>, handleFails: Call -> bool)
    ensures Failures(calls, handleFails) == |Failing(calls, handleFails)|
  {
    hide Failing;
    if calls == [] {
      OneMoreFailing(calls, handleFails);
    } else {
      FailuresAreCounted(calls[..|calls| - 1], handleFails);
      OneMoreFailing(calls, handleFails);
    }
  }

  lemma OneMoreFailing(calls: seq<Call>, handleFails: Call -> bool)
    ensures calls == [] ==> Failing(calls, handleFails) == {}
    ensures calls != [] ==>
              var n := |calls| - 1;
              var before := Failing(calls[..n], handleFails);
              n !in before && Failing(calls, handleFails) == before + if handleFails(calls[n]) then {n} else {}
  {
  }

  lemma CommandsArePlain(event: Event, comments: seq<Comment>)
    ensures HasCommands(AllComments(event, comments))
       <==> event.bodyCommands != map[] || exists k :: 0 <= k < |comments| && comments[k].commands != map[]
  {
    var all := AllComments(event, comments);
    DescriptionFirst(event, comments);
    hide AllComments;
    if HasCommands(all) {
      var i :| 0 <= i < |all| && all[i].commands != map[];
      if i > 0 {
        assert all[i] == comments[i - 1];
      }
    }
    if k :| 0 <= k < |comments| && comments[k].commands != map[] {
      assert all[k + 1].commands != map[];
    }
  }

  lemma CallsArePlain(config: Config, event: Event, comments: seq<Comment>, labels: seq<string>, logins: seq<string>, calls: seq<Call>)
    requires RightCalls(config, event, comments, labels, logins, calls)
    ensures PlainCalls(config, event, comments, labels, logins, calls)
  {
    hide Asks, Origin, Chain, PlainOrigin, PlainChain, AllComments, Handles, UserComments;
    forall u, b | b != event.base && PlainRequest(config, event, comments, labels, logins, u, b)
      ensures Handles(calls, b)
    {
      OriginIsPlain(config, event, comments, labels, u, b);
    }
    forall i | 0 <= i < |calls|
      ensures PlainCall(config, event, comments, labels, logins, calls[i])
    {
      OriginIsPlain(config, event, comments, labels, calls[i].requestor, calls[i].target);
      ChainIsPlain(event, comments, calls[i].target);
      assert Handles(calls, calls[i].target) by {
        HandledByItself(calls, i);
      }
    }
  }

  lemma HandledByItself(calls: seq<Call>, i: nat)
    requires i < |calls|
    ensures Handles(calls, calls[i].target)
  {
  }

  lemma RepliesArePlain(config: Config, event: Event, comments: seq<Comment>, labels: seq<string>, logins: seq<string>,
                        replies: seq<Reply>)
    requires RightReplies(config, event, comments, labels, logins, replies)
    ensures PlainReplies(config, event, comments, labels, logins, replies)
  {
    hide Asks, Origin, PlainOrigin, AllComments, UserComments;
    forall u | PlainRequest(config, event, comments, labels, logins, u, event.base)
      ensures exists r :: r in replies && r.requestor == u
    {
      OriginIsPlain(config, event, comments, labels, u, event.base);
      var all := AllComments(event, comments);
      assert Reply(u, Origin(all, labels, event.author, config.labelPrefix, u, event.base)) in replies;
    }
    forall r | r in replies
      ensures PlainRequest(config, event, comments, labels, logins, r.requestor, event.base)
      ensures PlainOrigin(config, event, comments, labels, r.requestor, event.base, r.origin)
    {
      OriginIsPlain(config, event, comments, labels, r.requestor, event.base);
    }
  }

  lemma OutcomeIsPlain(config: Config, event: Event, answers: Answers, handleFails: Call -> bool, outcome: Outcome)
    requires RightOutcome(config, event, answers, handleFails, outcome)
    ensures PlainOutcome(config, event, answers, handleFails, outcome)
  {
    hide RightCalls, RightReplies, PlainCalls, PlainReplies, AllComments, HasCommands, Failures;
    if answers.comments.Some? && answers.labels.Some? {
      var comments, labels := answers.comments.value, answers.labels.value;
      var logins := if answers.trusted.Some? then answers.trusted.value else [];
      CommandsArePlain(event, comments);
      if outcome.Dispatched? {
        CallsArePlain(config, event, comments, labels, logins, outcome.calls);
        RepliesArePlain(config, event, comments, labels, logins, outcome.replies);
        FailuresAreCounted(outcome.calls, handleFails);
      }
    }
  }

  method HandlePullRequest(config: Config, event: Event, answers: Answers, handleFails: Call -> bool)
      returns (outcome: Outcome)
    ensures PlainOutcome(config, event, answers, handleFails, outcome)
  {
    outcome := Process(config, event, answers, handleFails);
    OutcomeIsPlain(config, event, answers, handleFails, outcome);
  }

  method Process(config: Config, event: Event, answers: Answers, handleFails: Call -> bool)
      returns (outcome: Outcome)
    ensures RightOutcome(config, event, answers, handleFails, outcome)
  {
    if !Relevant(event) {
      return Ignored;
    }
    if answers.comments == None {
      return CommentsFailed;
    }
    var comments := answers.comments.value;
    hide RightCalls, RightReplies, CollectedAll, ChainsOf, Labelled, TrustedRequests, AllComments, HasCommands, HasLabel;
    var all := AllComments(event, comments);
    var requests, chains := CollectComments(all);
    var foundComments := |requests| != 0;
    FoundComments(all, requests);
    if answers.labels == None {
      return LabelsFailed;
    }
    var labels := answers.labels.value;
    var labelled, foundLabels := AddLabels(all, labels, event.author, config.labelPrefix, requests);
    if !foundComments && !foundLabels {
      return Ignored;
    }
    if !foundLabels && event.action == Labeled {
      return Ignored;
    }
    ghost var logins := if answers.trusted.Some? then answers.trusted.value else [];
    requests := labelled;
    if !config.allowAll {
      if answers.trusted == None {
        return TrustFailed;
      }
      requests := DropUntrusted(labelled, answers.trusted.value);
    }
    OnlyTrusted(config, event, comments, labels, logins, labelled, requests);
    var calls, replies, failures := Dispatch(requests, chains, event.base, handleFails);
    CallsAreRight(config, event, comments, labels, logins, requests, chains, handleFails, calls, replies, failures);
    RepliesAreRight(config, event, comments, labels, logins, requests, chains, handleFails, calls, replies, failures);
    assert failures == Failures(calls, handleFails);
    return Dispatched(calls, replies, failures);
  }
}
