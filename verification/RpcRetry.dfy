/**
 The retry loop on top of the transport: its passes are attempts of one client, each with an ID of its own, and
 what it returns is the handler's answer to one of them.
 */
module RpcRetry {
  import opened Common
  import opened CircuitBreakers
  import opened Retry
  import opened RpcTransport
  import W = RpcWire

  /** What a finished attempt comes to for the loop. */
  function OutcomeOf(result: RpcTransport.Result): Common.Result<seq<byte>, string> {
    match result
    case Data(data) => Ok(data)
    case Remote(message) => Err(message)
    case ConnectionClosed => Err("rpc connection closed")
    case NotConnected => Err("rpc client not connected")
    case SendError => Err("send request error")
    case Timeout => Err("rpc call timeout")
  }

  /** The loop's passes are these attempts, one after the other, all for one call. */
  predicate Tries(s: State, call: Call, mine: seq<nat>, world: nat -> Try) {
    && (forall j :: 0 <= j < |mine| ==>
          && mine[j] < |s.attempts| && s.attempts[mine[j]].call == call
          && s.attempts[mine[j]].stage.Returned?
          && world(j).outcome == OutcomeOf(s.attempts[mine[j]].stage.result))
    && (forall i, j :: 0 <= i < j < |mine| ==> mine[i] < mine[j])
  }

  /**
   The last attempt took an answer; unless that came after a torn request, it is the answer to that attempt's own
   request, with these data, and to none of the attempts before it.
   */
  predicate IsAnswerTo(s: State, mine: seq<nat>, data: seq<byte>)
    requires mine != [] && forall j :: 0 <= j < |mine| ==> mine[j] < |s.attempts|
  {
    var a := mine[|mine| - 1];
    && s.attempts[a].reply.Some? && s.attempts[a].reply.value.Got?
    && var i := s.attempts[a].reply.value.index;
       && (s.tear == None ==> i < Clean(s))
       && (i < Clean(s) ==>
             && W.HandledAs(s, a, i, data)
             && (forall j :: 0 <= j < |mine| - 1 ==> s.served[i].incoming != Some(W.RequestOf(s, mine[j]))))
  }

  /**
   Data that the loop returns are what its last attempt returned, after all its attempts before have failed. They
   come from an answer of the server, and unless that came after a torn request, it is the answer to that very
   attempt's request, by the handler of the call's method: never a late answer to an attempt before it, and never
   one to somebody else's call.
   */
  lemma RetriedDataAreOwn(c: W.Config, init: W.System, ms: seq<W.Move>, b: Breaker, retries: int, world: nat -> Try,
                          call: Call, mine: seq<nat>)
    requires W.Faithful(c) && W.Begins(init) && W.Moves(c, init, ms)
    requires var s := W.After(c, init, ms).s;
             && s.client.issued < ID_SPACE && Tries(s, call, mine, world)
             && |mine| == Passes(b, 0, retries + 1, Nothing, world).1
    requires Passes(b, 0, retries + 1, Nothing, world).0.Data?
    ensures var s, data := W.After(c, init, ms).s, Passes(b, 0, retries + 1, Nothing, world).0.data;
            && mine != []
            && (forall j :: 0 <= j < |mine| - 1 ==> !s.attempts[mine[j]].stage.result.Data?)
            && s.attempts[mine[|mine| - 1]].call == call
            && s.attempts[mine[|mine| - 1]].stage == Returned(RpcTransport.Data(data))
            && IsAnswerTo(s, mine, data)
  {
    hide W.Moves, W.After, W.Faithful, W.Begins, Passes;
    var s := W.After(c, init, ms).s;
    var (answer, made, left) := Passes(b, 0, retries + 1, Nothing, world);
    LastPassDecides(b, 0, retries + 1, Nothing, world);
    var a := mine[|mine| - 1];
    assert s.attempts[a].stage == Returned(RpcTransport.Data(answer.data));
    W.EndToEnd(c, init, ms, a, answer.data);
    var i := s.attempts[a].reply.value.index;
    if i < Clean(s) {
      forall j | 0 <= j < |mine| - 1 ensures s.served[i].incoming != Some(W.RequestOf(s, mine[j])) {
        OwnRequestsDiffer(c, init, ms, a, mine[j], i, answer.data);
      }
    }
  }

  /** Another attempt's request has another ID, so an answer to one is not an answer to the other. */
  lemma OwnRequestsDiffer(c: W.Config, init: W.System, ms: seq<W.Move>, a: nat, other: nat, i: nat, data: seq<byte>)
    requires W.Faithful(c) && W.Begins(init) && W.Moves(c, init, ms)
    requires var s := W.After(c, init, ms).s;
             && s.client.issued < ID_SPACE && a < |s.attempts| && other < |s.attempts| && a != other
             && W.HandledAs(s, a, i, data) && s.attempts[a].stage == Returned(RpcTransport.Data(data))
    ensures var s := W.After(c, init, ms).s;
            i < |s.served| && s.served[i].incoming != Some(W.RequestOf(s, other))
  {
    hide Runs, Exec, W.Moves, W.After, W.Faithful, W.Agrees, Init;
    W.BeginsAgrees(c, init);
    var acts := W.BytesRefineMessages(c, init, ms);
    W.InitOf(init);
    ReachedInv(init.s, acts);
    DataComesFromAnAnswer(init.s, acts, a);
    W.TicketsFit(init.s, acts, a);
    W.TicketsFit(init.s, acts, other);
    var s := W.After(c, init, ms).s;
    assert s.owners[s.attempts[a].ticket] == a;
  }
}
