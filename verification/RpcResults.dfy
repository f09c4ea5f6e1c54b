/**
 What a call ends with, told by the steps it took: a timeout, a failed write, a client that was not running, or
 what it took from its channel.
 */
module RpcResults {
  import opened Common
  import opened RpcTransport

  lemma {:induction false} RunSplits(s: State, before: seq<Action>, after: seq<Action>)
    requires Runs(s, before + after)
    ensures Runs(s, before) && Runs(Exec(s, before), after) && Exec(s, before + after) == Exec(Exec(s, before), after)
    decreases |before|
  {
    hide Enabled, Apply;
    if before == [] {
      assert [] + after == after;
    } else {
      assert (before + after)[1..] == before[1..] + after;
      RunSplits(Apply(s, before[0]), before[1..], after);
    }
  }

  /** A run is the run up to its last step, and that step. */
  lemma LastStep(s: State, acts: seq<Action>)
    requires Runs(s, acts) && acts != []
    ensures var before, last := acts[..|acts| - 1], acts[|acts| - 1];
            && acts == before + [last] && Runs(s, before) && Enabled(Exec(s, before), last)
            && Exec(s, acts) == Apply(Exec(s, before), last)
  {
    hide Enabled, Apply;
    var before, last := acts[..|acts| - 1], acts[|acts| - 1];
    assert acts == before + [last] && [last][1..] == [];
    RunSplits(s, before, [last]);
    assert Runs(Apply(Exec(s, before), last), []);
  }

  predicate SendFailed(acts: seq<Action>, a: nat) {
    SendFails(a, Unwritten) in acts || SendFails(a, Part) in acts || SendFails(a, Whole) in acts
  }

  /** What a call makes of what was in its channel: nil is a closed connection, an answer with a text its error. */
  predicate Reads(reply: Reply, result: RpcTransport.Result) {
    match reply
    case Closed => result == ConnectionClosed
    case Got(_, response) => result == if response.error == "" then Data(response.data) else Remote(response.error)
  }

  /** Where a call stands says which way it took out of its wait. */
  predicate StageTells(s: State, acts: seq<Action>, a: nat) {
    if a < |s.attempts| then
      var x := s.attempts[a];
      && (Expire(a) in acts <==> x.stage == Expired || x.stage == Returned(Timeout))
      && (SendFailed(acts, a) <==> x.stage == Unsent || x.stage == Returned(SendError))
      && (Take(a) in acts <==> x.reply.Some?)
      && (x.stage == Resolved ==> x.reply.Some?)
      && (x.reply.Some? ==> x.stage == Resolved || (x.stage.Returned? && Reads(x.reply.value, x.stage.result)))
      && (x.stage.Returned? && x.reply == None ==> x.stage.result in {Timeout, SendError, NotConnected})
    else
      Expire(a) !in acts && !SendFailed(acts, a) && Take(a) !in acts
  }

  lemma StepTells(s: State, acts: seq<Action>, act: Action, a: nat)
    requires StageTells(s, acts, a) && Enabled(s, act)
    ensures StageTells(Apply(s, act), acts + [act], a)
  {
    hide HandleRequest, TearDown, Deliver, Forget, Id, Clean;
  }

  lemma {:induction false} RunTells(init: State, acts: seq<Action>, a: nat)
    requires Init(init) && Runs(init, acts)
    ensures StageTells(Exec(init, acts), acts, a)
    decreases |acts|
  {
    hide Enabled, Apply, StageTells;
    if acts == [] {
      NothingTold(init, a);
    } else {
      LastStep(init, acts);
      RunTells(init, acts[..|acts| - 1], a);
      StepTells(Exec(init, acts[..|acts| - 1]), acts[..|acts| - 1], acts[|acts| - 1], a);
    }
  }

  lemma NothingTold(init: State, a: nat)
    requires Init(init)
    ensures StageTells(init, [], a)
  {
  }

  // ---------------------------------------------------------------- the moments that decide

  /** The state a run is in before its k-th step. */
  predicate Before(init: State, acts: seq<Action>, k: nat, s: State) {
    k < |acts| && Runs(init, acts[..k]) && Exec(init, acts[..k]) == s
  }

  /** The call came to a client in this state. */
  predicate CameTo(init: State, acts: seq<Action>, a: nat, s: State, k: nat) {
    Before(init, acts, k, s) && acts[k].Enter? && |s.attempts| == a
  }

  lemma {:induction false} CameSometime(init: State, acts: seq<Action>, a: nat) returns (k: nat, was: State)
    requires Init(init) && Runs(init, acts) && a < |Exec(init, acts).attempts|
    ensures CameTo(init, acts, a, was, k) && acts[k].call == Exec(init, acts).attempts[a].call
    ensures Exec(init, acts).attempts[a].stage == Returned(NotConnected) <==> !was.client.running
    decreases |acts|
  {
    hide Enabled, Apply;
    LastStep(init, acts);
    var before, last := acts[..|acts| - 1], acts[|acts| - 1];
    var s := Exec(init, before);
    if a < |s.attempts| {
      k, was := CameSometime(init, before, a);
      assert acts[..k] == before[..k];
      RunTells(init, before, a);
      NotConnectedStays(s, before, last, a);
    } else {
      k, was := |before|, s;
      assert acts[..k] == before;
      EntersAsItIs(s, last, a);
    }
  }

  lemma NotConnectedStays(s: State, acts: seq<Action>, act: Action, a: nat)
    requires StageTells(s, acts, a) && Enabled(s, act) && a < |s.attempts|
    ensures a < |Apply(s, act).attempts| && Apply(s, act).attempts[a].call == s.attempts[a].call
    ensures Apply(s, act).attempts[a].stage == Returned(NotConnected) <==> s.attempts[a].stage == Returned(NotConnected)
  {
    hide HandleRequest, TearDown, Deliver, Forget, Id, Clean;
  }

  lemma EntersAsItIs(s: State, act: Action, a: nat)
    requires Enabled(s, act) && |s.attempts| <= a < |Apply(s, act).attempts|
    ensures act.Enter? && a == |s.attempts| && Apply(s, act).attempts[a].call == act.call
    ensures Apply(s, act).attempts[a].stage == Returned(NotConnected) <==> !s.client.running
  {
    hide HandleRequest, TearDown, Deliver, Forget, Id, Clean;
  }

  /** The call took this out of its channel, which then is empty; no other channel changes. */
  predicate Took(init: State, acts: seq<Action>, a: nat, reply: Reply, s: State, k: nat) {
    && Before(init, acts, k, s) && acts[k] == Take(a) && a < |s.client.slots| && s.client.slots[a] == Some(reply)
    && Enabled(s, Take(a)) && Apply(s, Take(a)).client.slots == s.client.slots[a := None]
  }

  lemma {:induction false} TookSometime(init: State, acts: seq<Action>, a: nat) returns (k: nat, was: State)
    requires Init(init) && Runs(init, acts) && a < |Exec(init, acts).attempts| && Exec(init, acts).attempts[a].reply.Some?
    ensures Took(init, acts, a, Exec(init, acts).attempts[a].reply.value, was, k)
    decreases |acts|
  {
    hide Enabled, Apply;
    LastStep(init, acts);
    var before, last := acts[..|acts| - 1], acts[|acts| - 1];
    var s := Exec(init, before);
    TakesOrKeeps(s, last, a);
    if last == Take(a) {
      k, was := |before|, s;
      assert acts[..k] == before;
    } else {
      k, was := TookSometime(init, before, a);
      assert acts[..k] == before[..k];
    }
  }

  lemma TakesOrKeeps(s: State, act: Action, a: nat)
    requires Enabled(s, act) && a < |Apply(s, act).attempts| && Apply(s, act).attempts[a].reply.Some?
    ensures a < |s.attempts|
    ensures if act == Take(a) then
              && a < |s.client.slots| && s.client.slots[a] == Apply(s, act).attempts[a].reply
              && Apply(s, act).client.slots == s.client.slots[a := None]
            else s.attempts[a].reply == Apply(s, act).attempts[a].reply
  {
    hide HandleRequest, TearDown, Deliver, Forget, Id, Clean;
  }

  // ---------------------------------------------------------------- main results

  /**
   Every call that has returned, in every interleaving: a timeout exactly if its wait ran out, a send error exactly
   if its write failed, and "not connected" exactly if the client did not run when it came. In every other case,
   and in no other, it took something from its channel: nil means that the connection was closed, an answer with
   an error text is that error, and one without is its data.
   */
  lemma CallsReturnWhatHappened(init: State, acts: seq<Action>, a: nat) returns (k: nat, was: State)
    requires Init(init) && Runs(init, acts)
    requires a < |Exec(init, acts).attempts| && Exec(init, acts).attempts[a].stage.Returned?
    ensures CameTo(init, acts, a, was, k) && acts[k].call == Exec(init, acts).attempts[a].call
    ensures var result := Exec(init, acts).attempts[a].stage.result;
            && (result == NotConnected <==> !was.client.running)
            && (result == Timeout <==> Expire(a) in acts)
            && (result == SendError <==> SendFailed(acts, a))
            && (result == ConnectionClosed || result.Remote? || result.Data? <==> Take(a) in acts)
    ensures Take(a) in acts ==>
              exists reply: Reply, s: State, j: nat ::
                Took(init, acts, a, reply, s, j) && Reads(reply, Exec(init, acts).attempts[a].stage.result)
  {
    hide Runs, Exec, Took, CameTo;
    k, was := CameSometime(init, acts, a);
    RunTells(init, acts, a);
    if Take(a) in acts {
      var j, s := TookSometime(init, acts, a);
    }
  }

  /** Once the connection is closed, by a teardown or after Disconnect, no request is sent whole any more. */
  lemma {:induction false} NothingIsSentOnceClosed(s: State, act: Action, acts: seq<Action>)
    requires Enabled(s, act) && (act == CloseConn || (act == LoopExit && s.client.running) || s.connClosed)
    requires Runs(Apply(s, act), acts)
    ensures Exec(Apply(s, act), acts).connClosed && forall a: nat :: Send(a) !in acts
    decreases |acts|
  {
    var s' := Apply(s, act);
    StaysClosed(s, act);
    if acts != [] {
      hide Enabled, Apply;
      NothingIsSentOnceClosed(s', acts[0], acts[1..]);
      forall a: nat ensures Send(a) !in acts {
        ClosedRefusesSend(s', a);
        assert acts == [acts[0]] + acts[1..];
      }
    }
  }

  lemma StaysClosed(s: State, act: Action)
    requires Enabled(s, act) && (act == CloseConn || (act == LoopExit && s.client.running) || s.connClosed)
    ensures Apply(s, act).connClosed
  {
  }

  lemma ClosedRefusesSend(s: State, a: nat)
    requires s.connClosed
    ensures !Enabled(s, Send(a))
  {
  }

  /**
   What a caller makes of the server's answer to its request: the error text of an unknown method or of the
   handler, and data otherwise, also where the handler failed without a text.
   */
  lemma AnswersReadAs(methods: set<string>, request: Request, outcome: Outcome, index: nat, result: RpcTransport.Result)
    requires Reads(Got(index, HandleRequest(methods, Some(request), outcome)), result)
    ensures MethodKey(request.call) !in methods ==> result == Remote("method " + MethodKey(request.call) + " not found")
    ensures MethodKey(request.call) in methods ==>
              match outcome
              case Success(data) => result == Data(data)
              case Failure(message) => result == if message == "" then Data([]) else Remote(message)
  {
    assert |"method " + MethodKey(request.call) + " not found"| > 0;
  }
}
