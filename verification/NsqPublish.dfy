/** Publishing to a cluster of message queues: rotating start, then failover, over every interleaving of calls. */
module NsqPublish {
  import opened Rotation

  /** A producer is known by its address: the source compares pointers. */
  type Producer = nat

  predicate Distinct(ps: seq<Producer>) {
    forall i, j :: 0 <= i < j < |ps| ==> ps[i] != ps[j]
  }

  /** The producers other than p, in list order. */
  function Others(ps: seq<Producer>, p: Producer): seq<Producer> {
    if ps == [] then []
    else Others(ps[..|ps| - 1], p) + if ps[|ps| - 1] == p then [] else [ps[|ps| - 1]]
  }

  /** The order in which a call tries the producers. */
  function Order(ps: seq<Producer>, start: nat, failover: bool): seq<Producer>
    requires start < |ps|
  {
    [ps[start]] + if failover && |ps| > 1 then Others(ps, ps[start]) else []
  }

  /** One try to hand a message to a producer. Accepted means that the producer's client returned no error. */
  datatype Try = Try(producer: Producer, accepted: bool)

  /** The tries follow the order, all but possibly the last are refused, and `ok` tells whether the last is not. */
  predicate Follows(order: seq<Producer>, tries: seq<Try>, ok: bool) {
    && |tries| <= |order|
    && (forall i :: 0 <= i < |tries| ==> tries[i].producer == order[i])
    && (forall i :: 0 <= i < |tries| - 1 ==> !tries[i].accepted)
    && (ok <==> tries != [] && tries[|tries| - 1].accepted)
  }

  /** A call that has returned: one producer accepted, or there is none left to try. */
  predicate Returned(order: seq<Producer>, tries: seq<Try>, ok: bool) {
    Follows(order, tries, ok) && (!ok ==> |tries| == |order|)
  }

  function Acceptances(tries: seq<Try>): nat {
    if tries == [] then 0
    else Acceptances(tries[..|tries| - 1]) + if tries[|tries| - 1].accepted then 1 else 0
  }

  function TriesOf(tries: seq<Try>, p: Producer): nat {
    if tries == [] then 0
    else TriesOf(tries[..|tries| - 1], p) + if tries[|tries| - 1].producer == p then 1 else 0
  }

  // ---------------------------------------------------------------- what the order promises

  lemma {:induction false} OthersAre(ps: seq<Producer>, p: Producer)
    requires Distinct(ps)
    ensures Distinct(Others(ps, p))
    ensures forall q :: q in Others(ps, p) <==> q in ps && q != p
  {
    if ps != [] {
      var init := ps[..|ps| - 1];
      OthersAre(init, p);
      assert ps == init + [ps[|ps| - 1]];
      assert ps[|ps| - 1] !in init;
    }
  }

  lemma OrderIs(ps: seq<Producer>, start: nat, failover: bool)
    requires Distinct(ps) && start < |ps|
    ensures Distinct(Order(ps, start, failover)) && Order(ps, start, failover)[0] == ps[start]
    ensures forall q :: q in Order(ps, start, failover) <==> q == ps[start] || (failover && q in ps)
  {
    OthersAre(ps, ps[start]);
    assert ps[start] !in Others(ps, ps[start]);
    if failover && |ps| == 1 { assert ps == [ps[0]]; }
  }

  lemma {:induction false} RefusalsCountNothing(tries: seq<Try>)
    requires forall i :: 0 <= i < |tries| ==> !tries[i].accepted
    ensures Acceptances(tries) == 0
  {
    if tries != [] { RefusalsCountNothing(tries[..|tries| - 1]); }
  }

  lemma {:induction false} TriedOnce(order: seq<Producer>, tries: seq<Try>, p: Producer)
    requires Distinct(order) && |tries| <= |order|
    requires forall i :: 0 <= i < |tries| ==> tries[i].producer == order[i]
    ensures TriesOf(tries, p) == if p in order[..|tries|] then 1 else 0
  {
    if tries != [] {
      var k := |tries| - 1;
      TriedOnce(order, tries[..k], p);
      assert order[..k + 1] == order[..k] + [order[k]];
      assert order[k] !in order[..k];
    }
  }

  /**
   The central property of one call: it returns nil exactly when exactly one producer accepted the message,
   never more than one accepts, no producer is tried twice, and an error with failover on means that every
   producer was tried once and refused.
   */
  lemma NilIffOneAccepted(ps: seq<Producer>, start: nat, failover: bool, tries: seq<Try>, ok: bool)
    requires Distinct(ps) && start < |ps| && Returned(Order(ps, start, failover), tries, ok)
    ensures Acceptances(tries) == if ok then 1 else 0
    ensures tries != [] && tries[0].producer == ps[start]
    ensures forall p :: TriesOf(tries, p) <= 1
    ensures !ok && failover ==> forall p :: TriesOf(tries, p) == if p in ps then 1 else 0
    ensures !ok && !failover ==> tries == [Try(ps[start], false)]
  {
    var order := Order(ps, start, failover);
    OrderIs(ps, start, failover);
    RefusalsCountNothing(tries[..|tries| - 1]);
    forall p ensures TriesOf(tries, p) == if p in order[..|tries|] then 1 else 0 {
      TriedOnce(order, tries, p);
    }
    if !ok { assert order[..|tries|] == order; }
  }

  /** With failover on, a message is lost only if no producer would have it. */
  lemma FailoverFindsAWillingProducer(ps: seq<Producer>, start: nat, tries: seq<Try>, ok: bool, up: set<Producer>)
    requires Distinct(ps) && start < |ps| && Returned(Order(ps, start, true), tries, ok)
    requires forall i :: 0 <= i < |tries| ==> (tries[i].accepted <==> tries[i].producer in up)
    ensures ok <==> exists i :: 0 <= i < |ps| && ps[i] in up
  {
    var order := Order(ps, start, true);
    OrderIs(ps, start, true);
    if ok {
      var last := tries[|tries| - 1].producer;
      assert last in order;
      assert last in ps;
    } else {
      forall i | 0 <= i < |ps| ensures ps[i] !in up {
        assert ps[i] in order;
        var j :| 0 <= j < |order| && order[j] == ps[i];
        assert tries[j].producer == ps[i];
        assert !tries[j].accepted;
      }
    }
  }

  // ---------------------------------------------------------------- the code of one call

  /** The cluster, as a call sees it: whether a producer accepts a message is not in the caller's hands. */
  class Cluster {
    var tries: seq<Try>

    method Publish(p: Producer, accepts: bool) returns (err: bool)
      modifies this
      ensures tries == old(tries) + [Try(p, !err)] && err == !accepts
    {
      tries := tries + [Try(p, accepts)];
      err := !accepts;
    }
  }

  class NSQManager {
    const producers: seq<Producer>
    const clustered: bool
    const loadBalancing: bool
    const failoverEnabled: bool
    var producer: Producer
    var currentProducer: nat

    predicate Valid()
      reads this
    {
      producers != [] && Distinct(producers)
    }

    /** The main producer is the first. */
    constructor (producers: seq<Producer>, clustered: bool, loadBalancing: bool, failoverEnabled: bool)
      requires producers != [] && Distinct(producers)
      ensures Valid() && this.producers == producers && this.clustered == clustered
      ensures this.loadBalancing == loadBalancing && this.failoverEnabled == failoverEnabled
      ensures producer == producers[0] && currentProducer == 0
    {
      this.producers, this.clustered, this.loadBalancing := producers, clustered, loadBalancing;
      this.failoverEnabled := failoverEnabled;
      producer, currentProducer := producers[0], 0;
    }

    /** The locked part of a call. */
    method NextStart() returns (start: nat)
      requires Valid()
      modifies this`currentProducer
      ensures Valid() && start == old(currentProducer) % |producers| && start < |producers|
      ensures currentProducer == old(currentProducer) + 1
    {
      start := currentProducer % |producers|;
      currentProducer := currentProducer + 1;
    }

    /** `answers[k]` is what the producer at position k would say, if it is asked. */
    method PublishWithLoadBalancing(cluster: Cluster, answers: seq<bool>) returns (ok: bool)
      requires Valid() && |answers| == |producers|
      modifies this`currentProducer, cluster
      ensures Valid() && currentProducer == old(currentProducer) + 1
      ensures old(cluster.tries) <= cluster.tries
      ensures var start := old(currentProducer) % |producers|;
              Returned(Order(producers, start, failoverEnabled), cluster.tries[|old(cluster.tries)|..], ok)
    {
      var start := NextStart();
      var producer := producers[start];
      var err := cluster.Publish(producer, answers[start]);
      ok := !err;
      if err && failoverEnabled && |producers| > 1 {
        ghost var before := cluster.tries;
        ok := Failover(cluster, producer, answers);
        assert cluster.tries[|before| - 1..] == [Try(producer, false)] + cluster.tries[|before|..];
      }
    }

    /** The loop over the other producers. */
    method Failover(cluster: Cluster, producer: Producer, answers: seq<bool>) returns (ok: bool)
      requires |answers| == |producers|
      modifies cluster
      ensures old(cluster.tries) <= cluster.tries
      ensures Returned(Others(producers, producer), cluster.tries[|old(cluster.tries)|..], ok)
    {
      ghost var before := cluster.tries;
      for i := 0 to |producers|
        invariant cluster.tries == before + Refused(Others(producers[..i], producer))
      {
        assert producers[..i + 1][..i] == producers[..i];
        if producers[i] == producer { continue; }
        var fallbackErr := cluster.Publish(producers[i], answers[i]);
        if !fallbackErr {
          OthersStart(producers, i, producer);
          return true;
        }
      }
      assert producers[..|producers|] == producers;
      return false;
    }

    /** A manager of one producer, or one that does not share out the load, uses the main producer only. */
    method Publish(cluster: Cluster, answers: seq<bool>, answer: bool) returns (ok: bool)
      requires Valid() && |answers| == |producers|
      modifies this`currentProducer, cluster
      ensures Valid() && old(cluster.tries) <= cluster.tries
      ensures var shared, start := clustered && loadBalancing && |producers| > 1, old(currentProducer) % |producers|;
              && currentProducer == old(currentProducer) + (if shared then 1 else 0)
              && Returned(if shared then Order(producers, start, failoverEnabled) else [producer],
                          cluster.tries[|old(cluster.tries)|..], ok)
    {
      if clustered && loadBalancing && |producers| > 1 {
        ok := PublishWithLoadBalancing(cluster, answers);
      } else {
        var err := cluster.Publish(producer, answer);
        ok := !err;
      }
    }
  }

  function Refused(ps: seq<Producer>): (r: seq<Try>)
    ensures |r| == |ps|
    ensures forall i :: 0 <= i < |ps| ==> r[i] == Try(ps[i], false)
  {
    seq(|ps|, i requires 0 <= i < |ps| => Try(ps[i], false))
  }

  /** What a loop over the list has tried so far is where the whole order begins. */
  lemma {:induction false} OthersStart(ps: seq<Producer>, i: nat, p: Producer)
    requires i < |ps| && ps[i] != p
    ensures Others(ps[..i], p) + [ps[i]] <= Others(ps, p)
    decreases |ps|
  {
    var init := ps[..|ps| - 1];
    if i == |ps| - 1 {
      assert init == ps[..i];
    } else {
      OthersStart(init, i, p);
      assert init[..i] == ps[..i];
    }
  }

  // ---------------------------------------------------------------- concurrent calls

  /** A call in progress or done: where it started, and its tries so far. */
  datatype Call = Call(start: nat, tries: seq<Try>, ok: bool)

  datatype State = State(current: nat, calls: seq<Call>)

  /** Calls interleave freely: one enters the lock, or one tries its next producer. */
  datatype Action = Begin | Attempt(call: nat, accepted: bool)

  predicate Enabled(ps: seq<Producer>, failover: bool, s: State, a: Action) {
    match a
    case Begin => ps != []
    case Attempt(c, _) =>
      && c < |s.calls| && s.calls[c].start < |ps| && !s.calls[c].ok
      && |s.calls[c].tries| < |Order(ps, s.calls[c].start, failover)|
  }

  function Apply(ps: seq<Producer>, failover: bool, s: State, a: Action): State
    requires Enabled(ps, failover, s, a)
  {
    match a
    case Begin => State(s.current + 1, s.calls + [Call(s.current % |ps|, [], false)])
    case Attempt(c, accepted) =>
      var call := s.calls[c];
      var next := Order(ps, call.start, failover)[|call.tries|];
      s.(calls := s.calls[c := call.(tries := call.tries + [Try(next, accepted)], ok := accepted)])
  }

  /** Call c holds turn number first + c; every call follows its own order. */
  predicate Inv(ps: seq<Producer>, failover: bool, first: nat, s: State) {
    && ps != [] && s.current == first + |s.calls|
    && (forall c {:trigger s.calls[c]} :: 0 <= c < |s.calls| ==> CallInv(ps, failover, first, c, s.calls[c]))
  }

  predicate CallInv(ps: seq<Producer>, failover: bool, first: nat, c: nat, call: Call) {
    && ps != [] && call.start == (first + c) % |ps|
    && Follows(Order(ps, call.start, failover), call.tries, call.ok)
  }

  predicate Runs(ps: seq<Producer>, failover: bool, s: State, actions: seq<Action>)
    decreases |actions|
  {
    actions == [] ||
    (Enabled(ps, failover, s, actions[0]) && Runs(ps, failover, Apply(ps, failover, s, actions[0]), actions[1..]))
  }

  function Final(ps: seq<Producer>, failover: bool, s: State, actions: seq<Action>): State
    requires Runs(ps, failover, s, actions)
    decreases |actions|
  {
    if actions == [] then s else Final(ps, failover, Apply(ps, failover, s, actions[0]), actions[1..])
  }

  lemma StepKeepsInv(ps: seq<Producer>, failover: bool, first: nat, s: State, a: Action)
    requires Inv(ps, failover, first, s) && Enabled(ps, failover, s, a)
    ensures Inv(ps, failover, first, Apply(ps, failover, s, a))
  {
    hide Order;
  }

  lemma {:induction false} RunKeepsInv(ps: seq<Producer>, failover: bool, first: nat, s: State, actions: seq<Action>)
    requires Inv(ps, failover, first, s) && Runs(ps, failover, s, actions)
    ensures Inv(ps, failover, first, Final(ps, failover, s, actions))
    decreases |actions|
  {
    if actions != [] {
      StepKeepsInv(ps, failover, first, s, actions[0]);
      RunKeepsInv(ps, failover, first, Apply(ps, failover, s, actions[0]), actions[1..]);
    }
  }

  /** In every interleaving, a call that has returned returns nil exactly when one producer accepted its message. */
  lemma ConcurrentCallsPublishOnce(ps: seq<Producer>, failover: bool, first: nat, actions: seq<Action>, c: nat)
    requires Distinct(ps) && ps != [] && Runs(ps, failover, State(first, []), actions)
    requires var s := Final(ps, failover, State(first, []), actions);
             && c < |s.calls| && s.calls[c].start < |ps|
             && (s.calls[c].ok || |s.calls[c].tries| == |Order(ps, s.calls[c].start, failover)|)
    ensures var call := Final(ps, failover, State(first, []), actions).calls[c];
            && Acceptances(call.tries) == (if call.ok then 1 else 0)
            && (forall p :: TriesOf(call.tries, p) <= 1)
            && (!call.ok && failover ==> forall p :: TriesOf(call.tries, p) == if p in ps then 1 else 0)
  {
    RunKeepsInv(ps, failover, first, State(first, []), actions);
    var call := Final(ps, failover, State(first, []), actions).calls[c];
    assert CallInv(ps, failover, first, c, call);
    NilIffOneAccepted(ps, call.start, failover, call.tries, call.ok);
  }

  function Begun(actions: seq<Action>): nat {
    if actions == [] then 0 else Begun(actions[1..]) + if actions[0] == Begin then 1 else 0
  }

  /** What the producers answered to call c. */
  function Answers(actions: seq<Action>, c: nat): seq<bool> {
    if actions == [] then []
    else (if actions[0].Attempt? && actions[0].call == c then [actions[0].accepted] else []) + Answers(actions[1..], c)
  }

  function AnswersIn(tries: seq<Try>): (answers: seq<bool>)
    ensures |answers| == |tries|
  {
    seq(|tries|, i requires 0 <= i < |tries| => tries[i].accepted)
  }

  /** Every call that began is there, and its tries are the answers it got, one for one and in order. */
  lemma {:induction false} TriesAreAnswers(ps: seq<Producer>, failover: bool, s: State, actions: seq<Action>, c: nat)
    requires Runs(ps, failover, s, actions)
    ensures var f := Final(ps, failover, s, actions);
            && |f.calls| == |s.calls| + Begun(actions)
            && (c < |f.calls| ==>
                  AnswersIn(f.calls[c].tries)
                  == (if c < |s.calls| then AnswersIn(s.calls[c].tries) else []) + Answers(actions, c))
    decreases |actions|
  {
    if actions != [] {
      var s1 := Apply(ps, failover, s, actions[0]);
      StepAnswers(ps, failover, s, actions[0], c);
      hide Apply, AnswersIn, Order;
      TriesAreAnswers(ps, failover, s1, actions[1..], c);
    }
  }

  lemma StepAnswers(ps: seq<Producer>, failover: bool, s: State, a: Action, c: nat)
    requires Enabled(ps, failover, s, a)
    ensures var s' := Apply(ps, failover, s, a);
            && |s'.calls| == |s.calls| + (if a == Begin then 1 else 0)
            && (c < |s'.calls| ==>
                  AnswersIn(s'.calls[c].tries)
                  == (if c < |s.calls| then AnswersIn(s.calls[c].tries) else [])
                     + if a.Attempt? && a.call == c then [a.accepted] else [])
  {
    hide Order;
  }

  /** How many calls started at position p. */
  function StartsAt(calls: seq<Call>, p: nat): nat {
    if calls == [] then 0 else StartsAt(calls[..|calls| - 1], p) + if calls[|calls| - 1].start == p then 1 else 0
  }

  lemma {:induction false} StartsAreTurns(ps: seq<Producer>, failover: bool, first: nat, s: State, i: nat, j: nat, p: nat)
    requires Inv(ps, failover, first, s) && i <= j <= |s.calls|
    ensures StartsAt(s.calls[i..j], p) == Turns(first + j, |ps|, p) - Turns(first + i, |ps|, p)
    decreases j
  {
    if i < j {
      StartsAreTurns(ps, failover, first, s, i, j - 1, p);
      assert s.calls[i..j][..j - i - 1] == s.calls[i..j - 1];
      assert CallInv(ps, failover, first, j - 1, s.calls[j - 1]);
    }
  }

  /** However calls interleave, any n that enter the lock in a row start at each of the n producers exactly once. */
  lemma ConsecutiveCallsStartEverywhere(ps: seq<Producer>, failover: bool, first: nat, actions: seq<Action>, i: nat, p: nat)
    requires ps != [] && Runs(ps, failover, State(first, []), actions) && p < |ps|
    requires i + |ps| <= |Final(ps, failover, State(first, []), actions).calls|
    ensures StartsAt(Final(ps, failover, State(first, []), actions).calls[i..i + |ps|], p) == 1
  {
    RunKeepsInv(ps, failover, first, State(first, []), actions);
    StartsAreTurns(ps, failover, first, Final(ps, failover, State(first, []), actions), i, i + |ps|, p);
    OneRound(first + i, |ps|, p);
  }
}
