/**
 The RPC client and server over one connection, as a step system: any number of callers, the client's
 response loop, the server's request loop, timeouts, lost and torn writes, and teardown. Every lock
 region of the code is one step; a message on the wire is one frame (see SharedConnection for the bytes).
 */
module RpcTransport {
  import opened Common

  /** Request IDs are unsigned 64-bit numbers. */
  const ID_SPACE: nat := 0x1_0000_0000_0000_0000

  datatype Call = Call(service: string, name: string, args: seq<byte>, userID: nat, session: string, timeout: nat)

  datatype Request = Request(id: nat, call: Call)

  datatype Response = Response(id: nat, error: string, data: seq<byte>)

  // ---------------------------------------------------------------- the server

  /** What the handler of a method did with a call. */
  datatype Outcome = Success(data: seq<byte>) | Failure(message: string)

  function MethodKey(call: Call): string {
    call.service + "." + call.name
  }

  /** The answer to one frame; a frame that is no request is answered under ID 0. */
  function HandleRequest(methods: set<string>, incoming: Option<Request>, outcome: Outcome): Response {
    match incoming
    case None => Response(0, "unmarshal request error", [])
    case Some(request) =>
      if MethodKey(request.call) !in methods then
        Response(request.id, "method " + MethodKey(request.call) + " not found", [])
      else
        match outcome
        case Success(data) => Response(request.id, "", data)
        case Failure(message) => Response(request.id, message, [])
  }

  datatype Served = Served(incoming: Option<Request>, outcome: Outcome, response: Response)

  // ---------------------------------------------------------------- the client

  /** What a call's channel can hold: the answer with a given place in the server's log, or a closing nil. */
  datatype Reply = Closed | Got(index: nat, response: Response)

  /**
   The fields the client's lock protects. `issued` counts IDs handed out; the ID itself wraps at 64 bits.
   `callbacks` maps a request ID to the call waiting on it, `slots` are the calls' capacity-1 channels.
   */
  datatype Client = Client(running: bool, issued: nat, callbacks: map<nat, nat>, slots: seq<Option<Reply>>)

  function Id(ticket: nat): nat {
    ticket % ID_SPACE
  }

  /** A send that gives up when the channel is full. */
  function Offer(slots: seq<Option<Reply>>, a: nat, reply: Reply): seq<Option<Reply>> {
    if a < |slots| && slots[a] == None then slots[a := Some(reply)] else slots
  }

  function Deliver(c: Client, index: nat, response: Response): Client {
    if response.id in c.callbacks
    then c.(slots := Offer(c.slots, c.callbacks[response.id], Got(index, response)))
    else c
  }

  function TearDown(c: Client): Client {
    c.(running := false,
       callbacks := map[],
       slots := seq(|c.slots|, i requires 0 <= i < |c.slots| =>
         if i in c.callbacks.Values && c.slots[i] == None then Some(Closed) else c.slots[i]))
  }

  function Forget(c: Client, id: nat): Client {
    c.(callbacks := c.callbacks - {id})
  }

  // ---------------------------------------------------------------- calls

  datatype Result =
    | Data(data: seq<byte>) | Remote(message: string) | ConnectionClosed | NotConnected | SendError | Timeout

  /** Where an attempt is: each name says what it has done last. */
  datatype Stage = Entered | Issued | Registered | Sent | Unsent | Resolved | Expired | Returned(result: Result)

  /** One run of callOnce. `ticket` is the number of its ID, 0 before it has one; `reply` what it took from its channel. */
  datatype Attempt = Attempt(call: Call, stage: Stage, ticket: nat, reply: Option<Reply>)

  predicate InFlight(stage: Stage) {
    stage in {Registered, Sent, Unsent, Resolved, Expired}
  }

  function ResultOf(reply: Reply): Result {
    match reply
    case Closed => ConnectionClosed
    case Got(_, response) => if response.error != "" then Remote(response.error) else Data(response.data)
  }

  function Outcomes(attempt: Attempt): Result {
    match attempt.reply
    case Some(reply) => ResultOf(reply)
    case None => if attempt.stage == Unsent then SendError else Timeout
  }

  // ---------------------------------------------------------------- the system

  datatype State = State(
    methods: set<string>,
    client: Client,
    attempts: seq<Attempt>,
    sent: seq<Request>,      // requests written whole, in order
    owners: map<nat, nat>,   // the attempt each ID was handed to
    tear: Option<nat>,       // requests written whole before the first torn write
    served: seq<Served>,     // what the server has answered, in order
    delivered: nat,          // how many answers the response loop has read
    inHand: Option<nat>,     // the answer it has read but not handed over
    loopAlive: bool,
    connClosed: bool
  )

  /** How much of a request's frame had got out when its write failed. Only a proper part leaves the stream torn. */
  datatype Out = Unwritten | Part | Whole

  datatype Action =
    | Enter(call: Call) | Issue(a: nat) | Register(a: nat) | Send(a: nat) | SendFails(a: nat, out: Out)
    | Take(a: nat) | Expire(a: nat) | Return(a: nat)
    | Serve(decoded: bool, outcome: Outcome) | ServeTorn(incoming: Option<Request>, outcome: Outcome)
    | LoopRead | LoopDeliver | LoopDrop | LoopExit
    | Disconnect | CloseConn

  predicate Init(s: State) {
    && s.client == Client(true, 0, map[], []) && s.attempts == [] && s.sent == [] && s.owners == map[]
    && s.tear == None && s.served == [] && s.delivered == 0 && s.inHand == None && s.loopAlive && !s.connClosed
  }

  predicate At(s: State, a: nat, stage: Stage) {
    a < |s.attempts| && a < |s.client.slots| && s.attempts[a].stage == stage
  }

  /** How many requests the server can tell apart on the request stream. */
  function Clean(s: State): nat {
    if s.tear.Some? then s.tear.value else |s.sent|
  }

  predicate Enabled(s: State, act: Action) {
    match act
    case Enter(_) => true
    case Issue(a) => At(s, a, Entered)
    case Register(a) => At(s, a, Issued)
    case Send(a) => At(s, a, Registered) && !s.connClosed
    case SendFails(a, _) => At(s, a, Registered)
    case Take(a) => At(s, a, Sent) && s.client.slots[a].Some?
    case Expire(a) => At(s, a, Sent)
    case Return(a) => At(s, a, Resolved) || At(s, a, Expired) || At(s, a, Unsent)
    case Serve(_, _) => |s.served| < Clean(s) && |s.served| < |s.sent|
    case ServeTorn(_, _) => s.tear.Some? && |s.served| >= Clean(s)
    case LoopRead => s.loopAlive && s.inHand == None && s.delivered < |s.served|
    case LoopDeliver => s.loopAlive && s.inHand.Some? && s.inHand.value < |s.served|
    case LoopDrop => s.loopAlive && s.inHand.Some?
    case LoopExit => s.loopAlive && s.inHand == None
    case Disconnect => true
    case CloseConn => !s.client.running
  }

  function Stamp(s: State, a: nat, stage: Stage): State
    requires a < |s.attempts|
  {
    s.(attempts := s.attempts[a := s.attempts[a].(stage := stage)])
  }

  function Apply(s: State, act: Action): State
    requires Enabled(s, act)
  {
    match act
    case Enter(call) =>
      var stage := if s.client.running then Entered else Returned(NotConnected);
      s.(attempts := s.attempts + [Attempt(call, stage, 0, None)],
         client := s.client.(slots := s.client.slots + [None]))
    case Issue(a) =>
      var ticket := s.client.issued + 1;
      s.(attempts := s.attempts[a := s.attempts[a].(stage := Issued, ticket := ticket)],
         client := s.client.(issued := ticket),
         owners := s.owners[ticket := a])
    case Register(a) =>
      Stamp(s, a, Registered).(client := s.client.(callbacks := s.client.callbacks[Id(s.attempts[a].ticket) := a]))
    case Send(a) =>
      Stamp(s, a, Sent).(sent := s.sent + [Request(Id(s.attempts[a].ticket), s.attempts[a].call)])
    case SendFails(a, out) =>
      var request := Request(Id(s.attempts[a].ticket), s.attempts[a].call);
      Stamp(s, a, Unsent).(sent := if out == Whole then s.sent + [request] else s.sent,
                           tear := if out == Part && s.tear == None then Some(|s.sent|) else s.tear)
    case Take(a) =>
      s.(attempts := s.attempts[a := s.attempts[a].(stage := Resolved, reply := s.client.slots[a])],
         client := s.client.(slots := s.client.slots[a := None]))
    case Expire(a) =>
      Stamp(s, a, Expired)
    case Return(a) =>
      Stamp(s, a, Returned(Outcomes(s.attempts[a]))).(client := Forget(s.client, Id(s.attempts[a].ticket)))
    case Serve(decoded, outcome) =>
      var incoming := if decoded then Some(s.sent[|s.served|]) else None;
      s.(served := s.served + [Served(incoming, outcome, HandleRequest(s.methods, incoming, outcome))])
    case ServeTorn(incoming, outcome) =>
      s.(served := s.served + [Served(incoming, outcome, HandleRequest(s.methods, incoming, outcome))])
    case LoopRead =>
      s.(inHand := Some(s.delivered), delivered := s.delivered + 1)
    case LoopDeliver =>
      s.(client := Deliver(s.client, s.inHand.value, s.served[s.inHand.value].response), inHand := None)
    case LoopDrop =>
      s.(inHand := None)
    case LoopExit =>
      if s.client.running then s.(client := TearDown(s.client), connClosed := true, loopAlive := false)
      else s.(loopAlive := false)
    case Disconnect =>
      if s.client.running then s.(client := TearDown(s.client)) else s
    case CloseConn =>
      s.(connClosed := true)
  }

  predicate Runs(s: State, acts: seq<Action>)
    decreases |acts|
  {
    acts == [] || (Enabled(s, acts[0]) && Runs(Apply(s, acts[0]), acts[1..]))
  }

  function Exec(s: State, acts: seq<Action>): State
    requires Runs(s, acts)
    decreases |acts|
  {
    if acts == [] then s else Exec(Apply(s, acts[0]), acts[1..])
  }

  // ---------------------------------------------------------------- what every step keeps

  predicate Shape(s: State) {
    && |s.client.slots| == |s.attempts|
    && (s.tear.Some? ==> s.tear.value <= |s.sent|)
    && s.delivered <= |s.served|
    && (s.inHand.Some? ==> s.inHand.value < |s.served|)
    && (s.tear == None ==> |s.served| <= |s.sent|)
  }

  /** IDs are handed out once each: every ID in use has one owner, and knows it. */
  predicate Tickets(s: State) {
    && (forall id :: id in s.owners ==>
          0 < id <= s.client.issued && s.owners[id] < |s.attempts| && s.attempts[s.owners[id]].ticket == id)
    && (forall a :: 0 <= a < |s.attempts| ==>
          var x := s.attempts[a];
          && (x.ticket > 0 ==> x.ticket in s.owners && s.owners[x.ticket] == a)
          && (x.stage == Entered ==> x.ticket == 0)
          && (x.stage == Issued || InFlight(x.stage) ==> x.ticket > 0))
  }

  /** The callback map holds calls in flight, each under its own ID. */
  predicate Callbacks(s: State) {
    forall id :: id in s.client.callbacks ==>
      && id in s.owners && s.client.callbacks[id] == s.owners[id] < |s.attempts|
      && InFlight(s.attempts[s.owners[id]].stage)
  }

  /** A call that nobody can reach through the map any more has something in its channel. */
  predicate Reachable(s: State) {
    |s.client.slots| == |s.attempts| &&
    forall a :: 0 <= a < |s.attempts| && s.attempts[a].stage in {Registered, Sent}
      ==> s.attempts[a].ticket in s.client.callbacks || s.client.slots[a].Some?
  }

  /** Every request on the wire is the call of the attempt its ID was handed to. */
  predicate Wire(s: State) {
    forall j :: 0 <= j < |s.sent| ==>
      && s.sent[j].id in s.owners && s.owners[s.sent[j].id] < |s.attempts|
      && s.sent[j].call == s.attempts[s.owners[s.sent[j].id]].call
  }

  predicate Answers(s: State) {
    forall i :: 0 <= i < |s.served| ==>
      && s.served[i].response == HandleRequest(s.methods, s.served[i].incoming, s.served[i].outcome)
      && (i < Clean(s) && s.served[i].incoming.Some? ==> i < |s.sent| && s.served[i].incoming == Some(s.sent[i]))
  }

  /** A reply is an answer the server gave under the ID of the call that got it. */
  predicate IsAnswer(s: State, a: nat, reply: Option<Reply>)
    requires a < |s.attempts|
  {
    reply.Some? && reply.value.Got? ==>
      && reply.value.index < |s.served|
      && reply.value.response == s.served[reply.value.index].response
      && reply.value.response.id == s.attempts[a].ticket
      && s.attempts[a].ticket > 0
  }

  predicate Replies(s: State) {
    |s.client.slots| == |s.attempts| &&
    forall a :: 0 <= a < |s.attempts| ==>
      && IsAnswer(s, a, s.client.slots[a])
      && IsAnswer(s, a, s.attempts[a].reply)
  }

  predicate Results(s: State) {
    forall a :: 0 <= a < |s.attempts| && s.attempts[a].stage.Returned? ==>
      match s.attempts[a].reply
      case Some(reply) => s.attempts[a].stage.result == ResultOf(reply)
      case None => s.attempts[a].stage.result in {NotConnected, SendError, Timeout}
  }

  /** Who has which ID, and who can still be woken. */
  predicate Registry(s: State) {
    Shape(s) && Tickets(s) && Callbacks(s) && Reachable(s)
  }

  /** Whose answer is whose. */
  predicate Correlated(s: State) {
    Wire(s) && Answers(s) && Replies(s) && Results(s)
  }

  predicate Inv(s: State) {
    Registry(s) && Correlated(s)
  }

  lemma EnterKeepsInv(s: State, call: Call)
    requires Inv(s) && Enabled(s, Enter(call)) && Apply(s, Enter(call)).client.issued < ID_SPACE
    ensures Inv(Apply(s, Enter(call)))
  {
    hide HandleRequest, Outcomes, ResultOf;
  }

  lemma IssueKeepsInv(s: State, a: nat)
    requires Inv(s) && Enabled(s, Issue(a)) && Apply(s, Issue(a)).client.issued < ID_SPACE
    ensures Inv(Apply(s, Issue(a)))
  {
    hide Registry, Correlated, Apply;
    IssueKeepsRegistry(s, a);
    IssueKeepsCorrelated(s, a);
  }

  lemma IssueKeepsRegistry(s: State, a: nat)
    requires Registry(s) && Enabled(s, Issue(a)) && Apply(s, Issue(a)).client.issued < ID_SPACE
    ensures Registry(Apply(s, Issue(a)))
  {
    hide HandleRequest, Outcomes, ResultOf;
  }

  lemma IssueKeepsCorrelated(s: State, a: nat)
    requires Inv(s) && Enabled(s, Issue(a)) && Apply(s, Issue(a)).client.issued < ID_SPACE
    ensures Correlated(Apply(s, Issue(a)))
  {
    hide HandleRequest, Outcomes, ResultOf, Reachable;
  }

  lemma TicketIsId(s: State, a: nat)
    requires Tickets(s) && a < |s.attempts| && s.client.issued < ID_SPACE
    ensures Id(s.attempts[a].ticket) == s.attempts[a].ticket
  {
    assert s.attempts[a].ticket > 0 ==> s.attempts[a].ticket in s.owners;
  }

  lemma RegisterKeepsInv(s: State, a: nat)
    requires Inv(s) && Enabled(s, Register(a)) && Apply(s, Register(a)).client.issued < ID_SPACE
    ensures Inv(Apply(s, Register(a)))
  {
    hide Registry, Correlated, Apply;
    RegisterKeepsRegistry(s, a);
    RegisterKeepsCorrelated(s, a);
  }

  lemma RegisterKeepsRegistry(s: State, a: nat)
    requires Registry(s) && Enabled(s, Register(a)) && Apply(s, Register(a)).client.issued < ID_SPACE
    ensures Registry(Apply(s, Register(a)))
  {
    hide Shape, Tickets, Callbacks, Reachable, Enabled, Apply;
    RegisterKeepsTickets(s, a);
    RegisterKeepsCallbacks(s, a);
    RegisterKeepsReachable(s, a);
  }

  lemma RegisterKeepsTickets(s: State, a: nat)
    requires Registry(s) && Enabled(s, Register(a)) && Apply(s, Register(a)).client.issued < ID_SPACE
    ensures Shape(Apply(s, Register(a))) && Tickets(Apply(s, Register(a)))
  {
    hide HandleRequest, Outcomes, ResultOf, Callbacks, Reachable;
  }

  lemma RegisterKeepsCallbacks(s: State, a: nat)
    requires Registry(s) && Enabled(s, Register(a)) && Apply(s, Register(a)).client.issued < ID_SPACE
    ensures Callbacks(Apply(s, Register(a)))
  {
    TicketIsId(s, a);
    hide Id, Outcomes, Reachable;
  }

  lemma RegisterKeepsReachable(s: State, a: nat)
    requires Registry(s) && Enabled(s, Register(a)) && Apply(s, Register(a)).client.issued < ID_SPACE
    ensures Reachable(Apply(s, Register(a)))
  {
    TicketIsId(s, a);
    hide Id, Outcomes, Callbacks;
  }

  lemma RegisterKeepsCorrelated(s: State, a: nat)
    requires Inv(s) && Enabled(s, Register(a)) && Apply(s, Register(a)).client.issued < ID_SPACE
    ensures Correlated(Apply(s, Register(a)))
  {
    hide HandleRequest, Outcomes, ResultOf, Reachable;
  }

  lemma SendKeepsInv(s: State, a: nat)
    requires Inv(s) && Enabled(s, Send(a)) && Apply(s, Send(a)).client.issued < ID_SPACE
    ensures Inv(Apply(s, Send(a)))
  {
    hide Registry, Correlated, Apply;
    SendKeepsRegistry(s, a);
    SendKeepsCorrelated(s, a);
  }

  lemma SendKeepsRegistry(s: State, a: nat)
    requires Registry(s) && Enabled(s, Send(a))
    ensures Registry(Apply(s, Send(a)))
  {
    hide HandleRequest, Outcomes, ResultOf;
  }

  lemma SendKeepsCorrelated(s: State, a: nat)
    requires Inv(s) && Enabled(s, Send(a)) && Apply(s, Send(a)).client.issued < ID_SPACE
    ensures Correlated(Apply(s, Send(a)))
  {
    hide HandleRequest, Outcomes, ResultOf, Reachable;
  }

  lemma SendFailsKeepsInv(s: State, a: nat, out: Out)
    requires Inv(s) && Enabled(s, SendFails(a, out)) && Apply(s, SendFails(a, out)).client.issued < ID_SPACE
    ensures Inv(Apply(s, SendFails(a, out)))
  {
    hide Registry, Correlated, Apply;
    SendFailsKeepsRegistry(s, a, out);
    SendFailsKeepsCorrelated(s, a, out);
  }

  lemma SendFailsKeepsRegistry(s: State, a: nat, out: Out)
    requires Registry(s) && Enabled(s, SendFails(a, out))
    ensures Registry(Apply(s, SendFails(a, out)))
  {
    hide Shape, Tickets, Callbacks, Reachable, Enabled, Apply;
    SendFailsKeepsTickets(s, a, out);
    SendFailsKeepsReachable(s, a, out);
  }

  lemma SendFailsKeepsTickets(s: State, a: nat, out: Out)
    requires Registry(s) && Enabled(s, SendFails(a, out))
    ensures Shape(Apply(s, SendFails(a, out))) && Tickets(Apply(s, SendFails(a, out)))
  {
    hide HandleRequest, Outcomes, ResultOf, Callbacks, Reachable;
  }

  lemma SendFailsKeepsReachable(s: State, a: nat, out: Out)
    requires Registry(s) && Enabled(s, SendFails(a, out))
    ensures Callbacks(Apply(s, SendFails(a, out))) && Reachable(Apply(s, SendFails(a, out)))
  {
    hide HandleRequest, Outcomes, ResultOf;
  }

  lemma SendFailsKeepsCorrelated(s: State, a: nat, out: Out)
    requires Inv(s) && Enabled(s, SendFails(a, out)) && Apply(s, SendFails(a, out)).client.issued < ID_SPACE
    ensures Correlated(Apply(s, SendFails(a, out)))
  {
    hide HandleRequest, Outcomes, ResultOf, Reachable;
  }

  lemma TakeKeepsInv(s: State, a: nat)
    requires Inv(s) && Enabled(s, Take(a)) && Apply(s, Take(a)).client.issued < ID_SPACE
    ensures Inv(Apply(s, Take(a)))
  {
    hide Registry, Correlated, Apply;
    TakeKeepsRegistry(s, a);
    TakeKeepsCorrelated(s, a);
  }

  lemma TakeKeepsRegistry(s: State, a: nat)
    requires Registry(s) && Enabled(s, Take(a))
    ensures Registry(Apply(s, Take(a)))
  {
    hide HandleRequest, Outcomes, ResultOf;
  }

  lemma TakeKeepsCorrelated(s: State, a: nat)
    requires Inv(s) && Enabled(s, Take(a)) && Apply(s, Take(a)).client.issued < ID_SPACE
    ensures Correlated(Apply(s, Take(a)))
  {
    hide HandleRequest, Outcomes, ResultOf, Reachable;
  }

  lemma ExpireKeepsInv(s: State, a: nat)
    requires Inv(s) && Enabled(s, Expire(a)) && Apply(s, Expire(a)).client.issued < ID_SPACE
    ensures Inv(Apply(s, Expire(a)))
  {
    hide Registry, Correlated, Apply;
    ExpireKeepsRegistry(s, a);
    ExpireKeepsCorrelated(s, a);
  }

  lemma ExpireKeepsRegistry(s: State, a: nat)
    requires Registry(s) && Enabled(s, Expire(a))
    ensures Registry(Apply(s, Expire(a)))
  {
    hide HandleRequest, Outcomes, ResultOf;
  }

  lemma ExpireKeepsCorrelated(s: State, a: nat)
    requires Inv(s) && Enabled(s, Expire(a)) && Apply(s, Expire(a)).client.issued < ID_SPACE
    ensures Correlated(Apply(s, Expire(a)))
  {
    hide HandleRequest, Outcomes, ResultOf, Reachable;
  }

  lemma ReturnKeepsInv(s: State, a: nat)
    requires Inv(s) && Enabled(s, Return(a)) && Apply(s, Return(a)).client.issued < ID_SPACE
    ensures Inv(Apply(s, Return(a)))
  {
    hide Registry, Correlated, Apply;
    ReturnKeepsRegistry(s, a);
    ReturnKeepsCorrelated(s, a);
  }

  lemma ReturnKeepsRegistry(s: State, a: nat)
    requires Registry(s) && Enabled(s, Return(a)) && Apply(s, Return(a)).client.issued < ID_SPACE
    ensures Registry(Apply(s, Return(a)))
  {
    hide Shape, Tickets, Callbacks, Reachable, Enabled, Apply;
    ReturnKeepsTickets(s, a);
    ReturnKeepsCallbacks(s, a);
    ReturnKeepsReachable(s, a);
  }

  lemma ReturnKeepsTickets(s: State, a: nat)
    requires Registry(s) && Enabled(s, Return(a)) && Apply(s, Return(a)).client.issued < ID_SPACE
    ensures Shape(Apply(s, Return(a))) && Tickets(Apply(s, Return(a)))
  {
    hide HandleRequest, Outcomes, ResultOf, Callbacks, Reachable;
  }

  lemma ReturnKeepsCallbacks(s: State, a: nat)
    requires Registry(s) && Enabled(s, Return(a)) && Apply(s, Return(a)).client.issued < ID_SPACE
    ensures Callbacks(Apply(s, Return(a)))
  {
    TicketIsId(s, a);
    hide Id, Outcomes, Reachable;
  }

  lemma ReturnKeepsReachable(s: State, a: nat)
    requires Registry(s) && Enabled(s, Return(a)) && Apply(s, Return(a)).client.issued < ID_SPACE
    ensures Reachable(Apply(s, Return(a)))
  {
    TicketIsId(s, a);
    hide Id, Outcomes, Callbacks;
  }

  lemma ReturnKeepsCorrelated(s: State, a: nat)
    requires Inv(s) && Enabled(s, Return(a)) && Apply(s, Return(a)).client.issued < ID_SPACE
    ensures Correlated(Apply(s, Return(a)))
  {
    hide HandleRequest, ResultOf, Reachable;
  }

  lemma ServeKeepsInv(s: State, decoded: bool, outcome: Outcome)
    requires Inv(s) && Enabled(s, Serve(decoded, outcome)) && Apply(s, Serve(decoded, outcome)).client.issued < ID_SPACE
    ensures Inv(Apply(s, Serve(decoded, outcome)))
  {
    hide HandleRequest, Outcomes, ResultOf;
  }

  lemma ServeTornKeepsInv(s: State, incoming: Option<Request>, outcome: Outcome)
    requires Inv(s) && Enabled(s, ServeTorn(incoming, outcome)) && Apply(s, ServeTorn(incoming, outcome)).client.issued < ID_SPACE
    ensures Inv(Apply(s, ServeTorn(incoming, outcome)))
  {
    hide HandleRequest, Outcomes, ResultOf;
  }

  lemma LoopReadKeepsInv(s: State)
    requires Inv(s) && Enabled(s, LoopRead) && Apply(s, LoopRead).client.issued < ID_SPACE
    ensures Inv(Apply(s, LoopRead))
  {
    hide HandleRequest, Outcomes, ResultOf;
  }

  lemma LoopDeliverKeepsInv(s: State)
    requires Inv(s) && Enabled(s, LoopDeliver) && Apply(s, LoopDeliver).client.issued < ID_SPACE
    ensures Inv(Apply(s, LoopDeliver))
  {
    hide Registry, Correlated, Apply;
    LoopDeliverKeepsRegistry(s);
    LoopDeliverKeepsCorrelated(s);
  }

  lemma LoopDeliverKeepsRegistry(s: State)
    requires Registry(s) && Enabled(s, LoopDeliver) && Apply(s, LoopDeliver).client.issued < ID_SPACE
    ensures Registry(Apply(s, LoopDeliver))
  {
    hide HandleRequest, Outcomes, ResultOf;
  }

  lemma LoopDeliverKeepsCorrelated(s: State)
    requires Inv(s) && Enabled(s, LoopDeliver) && Apply(s, LoopDeliver).client.issued < ID_SPACE
    ensures Correlated(Apply(s, LoopDeliver))
  {
    hide HandleRequest, Outcomes, ResultOf, Reachable;
  }

  lemma LoopDropKeepsInv(s: State)
    requires Inv(s) && Enabled(s, LoopDrop) && Apply(s, LoopDrop).client.issued < ID_SPACE
    ensures Inv(Apply(s, LoopDrop))
  {
    hide HandleRequest, Outcomes, ResultOf;
  }

  lemma FlagsKeepInv(s: State, loopAlive: bool, connClosed: bool)
    requires Inv(s)
    ensures Inv(s.(loopAlive := loopAlive, connClosed := connClosed))
  {
    hide HandleRequest, ResultOf;
  }

  lemma TearDownKeepsInv(s: State)
    requires Inv(s)
    ensures Inv(s.(client := TearDown(s.client)))
  {
    TearDownKeepsRegistry(s);
    hide HandleRequest, ResultOf, Reachable, Callbacks;
  }

  lemma TearDownKeepsRegistry(s: State)
    requires Registry(s)
    ensures Registry(s.(client := TearDown(s.client)))
  {
    forall id | id in s.client.callbacks ensures s.client.callbacks[id] in s.client.callbacks.Values {
    }
  }

  lemma LoopExitKeepsInv(s: State)
    requires Inv(s) && Enabled(s, LoopExit) && Apply(s, LoopExit).client.issued < ID_SPACE
    ensures Inv(Apply(s, LoopExit))
  {
    hide Inv, TearDown;
    TearDownKeepsInv(s);
    var torn := s.(client := TearDown(s.client));
    FlagsKeepInv(torn, false, true);
    FlagsKeepInv(s, false, s.connClosed);
  }

  lemma DisconnectKeepsInv(s: State)
    requires Inv(s) && Enabled(s, Disconnect) && Apply(s, Disconnect).client.issued < ID_SPACE
    ensures Inv(Apply(s, Disconnect))
  {
    hide Inv, TearDown;
    TearDownKeepsInv(s);
  }

  lemma CloseConnKeepsInv(s: State)
    requires Inv(s) && Enabled(s, CloseConn) && Apply(s, CloseConn).client.issued < ID_SPACE
    ensures Inv(Apply(s, CloseConn))
  {
    hide Inv;
    FlagsKeepInv(s, s.loopAlive, true);
  }

  lemma StepKeepsInv(s: State, act: Action)
    requires Inv(s) && Enabled(s, act) && Apply(s, act).client.issued < ID_SPACE
    ensures Inv(Apply(s, act))
  {
    hide Inv, Enabled, Apply;
    match act
    case Enter(call) => EnterKeepsInv(s, call);
    case Issue(a) => IssueKeepsInv(s, a);
    case Register(a) => RegisterKeepsInv(s, a);
    case Send(a) => SendKeepsInv(s, a);
    case SendFails(a, out) => SendFailsKeepsInv(s, a, out);
    case Take(a) => TakeKeepsInv(s, a);
    case Expire(a) => ExpireKeepsInv(s, a);
    case Return(a) => ReturnKeepsInv(s, a);
    case Serve(decoded, outcome) => ServeKeepsInv(s, decoded, outcome);
    case ServeTorn(incoming, outcome) => ServeTornKeepsInv(s, incoming, outcome);
    case LoopRead => LoopReadKeepsInv(s);
    case LoopDeliver => LoopDeliverKeepsInv(s);
    case LoopDrop => LoopDropKeepsInv(s);
    case LoopExit => LoopExitKeepsInv(s);
    case Disconnect => DisconnectKeepsInv(s);
    case CloseConn => CloseConnKeepsInv(s);
  }

  lemma {:induction false} IssuedOnlyGrows(s: State, acts: seq<Action>)
    requires Runs(s, acts)
    ensures s.client.issued <= Exec(s, acts).client.issued
    decreases |acts|
  {
    if acts != [] {
      IssuedOnlyGrows(Apply(s, acts[0]), acts[1..]);
    }
  }

  lemma {:induction false} RunKeepsInv(s: State, acts: seq<Action>)
    requires Inv(s) && Runs(s, acts) && Exec(s, acts).client.issued < ID_SPACE
    ensures Inv(Exec(s, acts))
    decreases |acts|
  {
    hide Inv, Enabled, Apply;
    if acts != [] {
      IssuedOnlyGrows(Apply(s, acts[0]), acts[1..]);
      StepKeepsInv(s, acts[0]);
      RunKeepsInv(Apply(s, acts[0]), acts[1..]);
    }
  }

  /** The states the system can be in before it has handed out 2^64 IDs. */
  predicate Reached(init: State, acts: seq<Action>) {
    Init(init) && Runs(init, acts) && Exec(init, acts).client.issued < ID_SPACE
  }

  lemma ReachedInv(init: State, acts: seq<Action>)
    requires Reached(init, acts)
    ensures Inv(Exec(init, acts))
  {
    RunKeepsInv(init, acts);
  }

  // ---------------------------------------------------------------- main results

  /** What a caller sees of an answer to its own request. */
  lemma ResultOfOwnAnswer(methods: set<string>, request: Request, outcome: Outcome, index: nat)
    ensures var result := ResultOf(Got(index, HandleRequest(methods, Some(request), outcome)));
            && (result.Remote? || result.Data?)
            && (forall data :: result == Data(data) <==>
                  && MethodKey(request.call) in methods
                  && (outcome == Success(data) || (outcome == Failure("") && data == [])))
  {
    assert "method " + MethodKey(request.call) + " not found" != "" by {
      assert |"method " + MethodKey(request.call) + " not found"| > 0;
    }
  }

  /**
   Correlation. In every interleaving, a call that took an answer from its channel took the server's answer
   to its own request: the one that carries its own ID, service, method and arguments. It returns data
   exactly when the handler of that request succeeded with those data, or failed with an empty message
   (which reads as success with no data). After a torn write the promise covers the requests before it.
   */
  lemma AnswerIsOwn(init: State, acts: seq<Action>, a: nat, i: nat, response: Response)
    requires Reached(init, acts)
    requires var s := Exec(init, acts);
             a < |s.attempts| && s.attempts[a].reply == Some(Got(i, response)) && i < Clean(s)
    ensures var s := Exec(init, acts);
            && i < |s.served|
            && s.served[i].incoming == Some(Request(s.attempts[a].ticket, s.attempts[a].call))
            && response == HandleRequest(s.methods, s.served[i].incoming, s.served[i].outcome)
            && (s.attempts[a].stage.Returned? ==>
                  forall data :: s.attempts[a].stage.result == Data(data) <==>
                    && MethodKey(s.attempts[a].call) in s.methods
                    && (s.served[i].outcome == Success(data) || (s.served[i].outcome == Failure("") && data == [])))
  {
    ReachedInv(init, acts);
    var s := Exec(init, acts);
    hide Runs, Exec;
    ResultOfOwnAnswer(s.methods, Request(s.attempts[a].ticket, s.attempts[a].call), s.served[i].outcome, i);
  }

  /** A call returns data, or the server's error, only by taking an answer from its channel. */
  lemma DataComesFromAnAnswer(init: State, acts: seq<Action>, a: nat)
    requires Reached(init, acts)
    requires var s := Exec(init, acts);
             a < |s.attempts| && s.attempts[a].stage.Returned?
             && (s.attempts[a].stage.result.Data? || s.attempts[a].stage.result.Remote?)
    ensures var s := Exec(init, acts);
            && s.attempts[a].reply.Some? && s.attempts[a].reply.value.Got?
            && s.attempts[a].reply.value.index < |s.served|
            && s.attempts[a].reply.value.response == s.served[s.attempts[a].reply.value.index].response
            && s.attempts[a].stage.result == ResultOf(s.attempts[a].reply.value)
            && (s.tear == None ==> s.attempts[a].reply.value.index < Clean(s))
  {
    ReachedInv(init, acts);
  }

  /** The answer a call holds, in its channel or taken from it. */
  predicate Holds(s: State, a: nat, i: nat) {
    && a < |s.attempts| && a < |s.client.slots|
    && ((s.client.slots[a].Some? && s.client.slots[a].value.Got? && s.client.slots[a].value.index == i)
        || (s.attempts[a].reply.Some? && s.attempts[a].reply.value.Got? && s.attempts[a].reply.value.index == i))
  }

  /**
   No answer reaches two calls; an answer to one attempt's request, however late, never reaches another
   attempt (such as its retry); and an answer under ID 0 reaches nobody.
   */
  lemma AnswersReachOneCall(init: State, acts: seq<Action>, i: nat)
    requires Reached(init, acts) && i < |Exec(init, acts).served|
    ensures var s := Exec(init, acts);
            && (forall a, b :: Holds(s, a, i) && Holds(s, b, i) ==> a == b)
            && (forall a, b | Holds(s, b, i) && 0 <= a < |s.attempts| && s.attempts[a].ticket > 0
                 :: s.served[i].incoming == Some(Request(s.attempts[a].ticket, s.attempts[a].call)) ==> a == b)
            && (s.served[i].response.id == 0 ==> forall b :: !Holds(s, b, i))
            && (s.served[i].incoming == None ==> s.served[i].response.id == 0)
  {
    ReachedInv(init, acts);
    var s := Exec(init, acts);
    hide Runs, Exec;
  }

  /**
   An answer the response loop hands over goes into the channel of the call whose ID it carries, if that is still
   registered and its channel is empty, and into no other; else it is dropped.
   */
  lemma HandOverReachesItsCall(init: State, acts: seq<Action>)
    requires Reached(init, acts) && Enabled(Exec(init, acts), LoopDeliver)
    ensures var s, s' := Exec(init, acts), Apply(Exec(init, acts), LoopDeliver);
            var i := s.inHand.value;
            var response := s.served[i].response;
            && s'.inHand == None && |s'.client.slots| == |s.attempts| == |s.client.slots|
            && forall a :: 0 <= a < |s.attempts| ==>
                 s'.client.slots[a]
                 == if s.attempts[a].ticket == response.id && response.id in s.client.callbacks && s.client.slots[a] == None
                    then Some(Got(i, response)) else s.client.slots[a]
  {
    ReachedInv(init, acts);
    hide Runs, Exec, Correlated, Reachable;
  }

  /** The callback map holds only the IDs of calls in flight, each pointing to its own call. */
  lemma CallbacksAreInFlight(init: State, acts: seq<Action>)
    requires Reached(init, acts)
    ensures var s := Exec(init, acts);
            && (forall id :: id in s.client.callbacks ==>
                  var a := s.client.callbacks[id];
                  a < |s.attempts| && s.attempts[a].ticket == id && InFlight(s.attempts[a].stage))
            && ((forall a :: 0 <= a < |s.attempts| ==> !InFlight(s.attempts[a].stage))
                ==> s.client.callbacks == map[])
  {
    ReachedInv(init, acts);
    var s := Exec(init, acts);
    hide Runs, Exec;
    if forall a :: 0 <= a < |s.attempts| ==> !InFlight(s.attempts[a].stage) {
      assert forall id :: id !in s.client.callbacks;
    }
  }

  /**
   At every moment a waiting call is in the callback map or has something in its channel already. While the
   client runs, that means it will be answered or woken: by the response loop, or by a teardown still to come.
   Once there is neither, being in the map helps nobody; see StrandedCallsRegisteredLate.
   */
  lemma WaitingCallsAreReachable(init: State, acts: seq<Action>)
    requires Reached(init, acts)
    ensures var s := Exec(init, acts);
            forall a: nat :: At(s, a, Registered) || At(s, a, Sent) ==>
              s.attempts[a].ticket in s.client.callbacks || s.client.slots[a].Some?
  {
    ReachedInv(init, acts);
    hide Runs, Exec, Tickets, Callbacks, Correlated;
  }

  /**
   A teardown, by Disconnect or by the end of the response loop, empties the callback map and leaves
   something in the channel of every call registered until then; no waiting call is left with an empty one. It
   takes no answer out of a channel, and puts nothing into the channel of a call that is not registered.
   */
  lemma TearDownWakesEverybody(init: State, acts: seq<Action>, act: Action)
    requires Reached(init, acts) && Enabled(Exec(init, acts), act)
    requires (act == Disconnect || act == LoopExit) && Exec(init, acts).client.running
    ensures var s, s' := Exec(init, acts), Apply(Exec(init, acts), act);
            && !s'.client.running && s'.client.callbacks == map[]
            && (forall id :: id in s.client.callbacks ==>
                  s.client.callbacks[id] < |s'.client.slots| && s'.client.slots[s.client.callbacks[id]].Some?)
            && (forall a: nat :: At(s', a, Registered) || At(s', a, Sent) ==> s'.client.slots[a].Some?)
            && (forall a :: 0 <= a < |s'.client.slots| ==>
                  || s'.client.slots[a] == s.client.slots[a]
                  || (s.client.slots[a] == None && s'.client.slots[a] == Some(Closed) && a in s.client.callbacks.Values))
  {
    ReachedInv(init, acts);
    var s := Exec(init, acts);
    hide Runs, Exec, Correlated, Tickets;
    TearDownKeepsRegistry(s);
    TearDownFills(s.client);
    hide TearDown;
  }

  /** The call waits for an answer. */
  predicate Waiting(s: State, a: nat) {
    At(s, a, Registered) || At(s, a, Sent)
  }

  predicate HasRegistered(s: State, a: nat) {
    a < |s.attempts| && s.attempts[a].stage != Entered && s.attempts[a].stage != Issued
  }

  /** The call has registered, and if it still waits, its channel holds something. */
  predicate Filled(s: State, a: nat) {
    |s.client.slots| == |s.attempts| && HasRegistered(s, a) && (Waiting(s, a) ==> s.client.slots[a].Some?)
  }

  lemma StepKeepsFilled(s: State, act: Action, a: nat)
    requires Filled(s, a) && Enabled(s, act)
    ensures Filled(Apply(s, act), a)
  {
    hide TearDown, HandleRequest;
    if act == Disconnect || act == LoopExit {
      TearDownEmptiesNothing(s.client);
    }
  }

  lemma TearDownEmptiesNothing(c: Client)
    ensures |TearDown(c).slots| == |c.slots|
    ensures forall i :: 0 <= i < |c.slots| && c.slots[i].Some? ==> TearDown(c).slots[i] == c.slots[i]
  {
  }

  lemma {:induction false} RunKeepsFilled(s: State, acts: seq<Action>, a: nat)
    requires Filled(s, a) && Runs(s, acts)
    ensures Filled(Exec(s, acts), a)
    decreases |acts|
  {
    hide Filled, Enabled, Apply;
    if acts != [] {
      StepKeepsFilled(s, acts[0], a);
      RunKeepsFilled(Apply(s, acts[0]), acts[1..], a);
    }
  }

  /**
   After a teardown, whatever happens then, a call that waits with an empty channel had not registered when
   the teardown happened: it had passed the check of `running` before, and registered after.
   */
  lemma StrandedCallsRegisteredLate(init: State, before: seq<Action>, act: Action, after: seq<Action>, a: nat)
    requires Reached(init, before) && Enabled(Exec(init, before), act) && Exec(init, before).client.running
    requires act == Disconnect || act == LoopExit
    requires Runs(Apply(Exec(init, before), act), after)
    requires var s := Exec(Apply(Exec(init, before), act), after);
             Waiting(s, a) && s.client.slots[a] == None
    ensures !HasRegistered(Exec(init, before), a)
  {
    var s := Exec(init, before);
    if HasRegistered(s, a) {
      TearDownFillsRegistered(init, before, act, a);
      RunKeepsFilled(Apply(s, act), after, a);
    }
  }

  lemma TearDownFillsRegistered(init: State, before: seq<Action>, act: Action, a: nat)
    requires Reached(init, before) && Enabled(Exec(init, before), act) && Exec(init, before).client.running
    requires act == Disconnect || act == LoopExit
    requires HasRegistered(Exec(init, before), a)
    ensures Filled(Apply(Exec(init, before), act), a)
  {
    TearDownWakesEverybody(init, before, act);
    ReachedInv(init, before);
    hide Runs, Exec, Correlated, Tickets, Callbacks;
  }

  /** Nobody hands anything over any more: the client is torn down and its response loop has ended. */
  predicate Silent(s: State) {
    !s.client.running && !s.loopAlive && |s.client.slots| == |s.attempts|
  }

  /** The call waits with an empty channel, or did so to the end. */
  predicate Stranded(s: State, a: nat) {
    && a < |s.attempts| && a < |s.client.slots| && s.client.slots[a] == None && s.attempts[a].reply == None
    && (Waiting(s, a) || s.attempts[a].stage == Expired || s.attempts[a].stage == Unsent
        || s.attempts[a].stage == Returned(Timeout) || s.attempts[a].stage == Returned(SendError))
  }

  /** The call has sent its request, and has nothing before it but its timeout. */
  predicate TimingOut(s: State, a: nat) {
    && Stranded(s, a)
    && (s.attempts[a].stage == Sent || s.attempts[a].stage == Expired || s.attempts[a].stage == Returned(Timeout))
  }

  lemma StepKeepsStranded(s: State, act: Action, a: nat)
    requires Silent(s) && Stranded(s, a) && Enabled(s, act)
    ensures Silent(Apply(s, act)) && Stranded(Apply(s, act), a)
    ensures TimingOut(s, a) ==> TimingOut(Apply(s, act), a)
  {
    hide TearDown, HandleRequest;
  }

  /**
   Once nobody hands anything over, a call that waits with an empty channel gets nothing any more; one that has
   sent its request returns nothing but a timeout, and one that has not, nothing but that or its failed write.
   */
  lemma {:induction false} StrandedCallsTimeOut(s: State, acts: seq<Action>, a: nat)
    requires Silent(s) && Stranded(s, a) && Runs(s, acts)
    ensures Silent(Exec(s, acts)) && Stranded(Exec(s, acts), a)
    ensures TimingOut(s, a) ==> TimingOut(Exec(s, acts), a)
    decreases |acts|
  {
    hide Silent, Stranded, TimingOut, Enabled, Apply;
    if acts != [] {
      StepKeepsStranded(s, acts[0], a);
      StrandedCallsTimeOut(Apply(s, acts[0]), acts[1..], a);
    }
  }

  lemma RunOfTwo(s: State, rest: seq<Action>, act: Action, act': Action)
    requires Enabled(s, act) && Enabled(Apply(s, act), act')
    ensures Runs(s, [act, act'] + rest) <==> Runs(Apply(Apply(s, act), act'), rest)
    ensures Runs(s, [act, act'] + rest) ==> Exec(s, [act, act'] + rest) == Exec(Apply(Apply(s, act), act'), rest)
  {
    hide Enabled, Apply;
    assert ([act, act'] + rest)[1..] == [act'] + rest && ([act'] + rest)[1..] == rest;
    assert Runs(Apply(s, act), [act'] + rest) <==> Runs(Apply(Apply(s, act), act'), rest);
  }

  lemma LateCallIsStranded(s: State)
    requires !s.client.running && s.loopAlive && s.inHand == None && !s.connClosed
    requires At(s, 0, Entered) && |s.attempts| == |s.client.slots| && s.client.slots[0] == None && s.attempts[0].reply == None
    ensures var acts := [Issue(0), Register(0), Send(0), LoopExit];
            && Runs(s, acts) && Exec(s, acts).client.issued == s.client.issued + 1
            && Silent(Exec(s, acts)) && Stranded(Exec(s, acts), 0) && At(Exec(s, acts), 0, Sent)
  {
    hide Enabled, Apply, Runs, Exec, Silent, Stranded;
    LateCallRegisters(s);
    var s2 := Apply(Apply(s, Issue(0)), Register(0));
    LateCallSends(s2);
    RunOfTwo(s, [Send(0), LoopExit], Issue(0), Register(0));
    RunOfTwo(s2, [], Send(0), LoopExit);
    assert [Issue(0), Register(0)] + [Send(0), LoopExit] == [Issue(0), Register(0), Send(0), LoopExit];
    assert [Send(0), LoopExit] + [] == [Send(0), LoopExit];
    NothingRun(Apply(Apply(s2, Send(0)), LoopExit));
  }

  lemma LateCallRegisters(s: State)
    requires !s.client.running && s.loopAlive && s.inHand == None && !s.connClosed
    requires At(s, 0, Entered) && |s.attempts| == |s.client.slots| && s.client.slots[0] == None && s.attempts[0].reply == None
    ensures Enabled(s, Issue(0)) && Enabled(Apply(s, Issue(0)), Register(0))
    ensures var s' := Apply(Apply(s, Issue(0)), Register(0));
            && !s'.client.running && s'.loopAlive && s'.inHand == None && !s'.connClosed
            && At(s', 0, Registered) && |s'.attempts| == |s'.client.slots|
            && s'.client.slots[0] == None && s'.attempts[0].reply == None
            && s'.client.issued == s.client.issued + 1
  {
  }

  lemma LateCallSends(s: State)
    requires !s.client.running && s.loopAlive && s.inHand == None && !s.connClosed
    requires At(s, 0, Registered) && |s.attempts| == |s.client.slots| && s.client.slots[0] == None && s.attempts[0].reply == None
    ensures Enabled(s, Send(0)) && Enabled(Apply(s, Send(0)), LoopExit)
    ensures var s' := Apply(Apply(s, Send(0)), LoopExit);
            Silent(s') && Stranded(s', 0) && At(s', 0, Sent) && s'.client.issued == s.client.issued
  {
  }

  lemma NothingRun(s: State)
    ensures Runs(s, []) && Exec(s, []) == s
  {
  }

  lemma CallEntersBeforeDisconnect(init: State, call: Call)
    requires Init(init)
    ensures Enabled(init, Enter(call)) && Enabled(Apply(init, Enter(call)), Disconnect)
    ensures var s := Apply(Apply(init, Enter(call)), Disconnect);
            && !s.client.running && s.loopAlive && s.inHand == None && !s.connClosed && s.client.issued == 0
            && At(s, 0, Entered) && |s.attempts| == |s.client.slots| && s.client.slots[0] == None
            && s.attempts[0].reply == None
  {
  }

  /** It happens: a call passes the check, the client disconnects, and the call registers and sends for nobody. */
  lemma StrandedCallExists(init: State, call: Call)
    requires Init(init)
    ensures var acts := [Enter(call), Disconnect, Issue(0), Register(0), Send(0), LoopExit];
            && Reached(init, acts)
            && Silent(Exec(init, acts)) && Stranded(Exec(init, acts), 0) && At(Exec(init, acts), 0, Sent)
  {
    hide Enabled, Apply, Runs, Exec, Silent, Stranded;
    CallEntersBeforeDisconnect(init, call);
    LateCallIsStranded(Apply(Apply(init, Enter(call)), Disconnect));
    RunOfTwo(init, [Issue(0), Register(0), Send(0), LoopExit], Enter(call), Disconnect);
    assert [Enter(call), Disconnect] + [Issue(0), Register(0), Send(0), LoopExit]
        == [Enter(call), Disconnect, Issue(0), Register(0), Send(0), LoopExit];
  }

  lemma TearDownFills(c: Client)
    ensures var c' := TearDown(c);
            && |c'.slots| == |c.slots| && c'.callbacks == map[]
            && (forall id :: id in c.callbacks && c.callbacks[id] < |c.slots| ==> c'.slots[c.callbacks[id]].Some?)
            && (forall a :: 0 <= a < |c.slots| ==>
                  || c'.slots[a] == c.slots[a]
                  || (c.slots[a] == None && c'.slots[a] == Some(Closed) && a in c.callbacks.Values))
  {
    forall id | id in c.callbacks ensures c.callbacks[id] in c.callbacks.Values {
    }
  }

  /** Exactly up to 2^64 - 1 attempts do IDs stay distinct from each other and from 0. */
  lemma IdsAreFreshIff(n: nat)
    ensures (forall i, j :: 1 <= i < j <= n ==> Id(i) != Id(j)) && (forall i :: 1 <= i <= n ==> Id(i) != 0)
            <==> n < ID_SPACE
  {
    if n < ID_SPACE {
      assert forall i :: 0 <= i <= n ==> Id(i) == i;
    } else {
      assert Id(ID_SPACE) == 0;
    }
  }

  /** Methods are told apart by service and name as long as service names hold no dot. */
  lemma MethodKeyIsInjective(a: Call, b: Call)
    requires '.' !in a.service && '.' !in b.service
    ensures MethodKey(a) == MethodKey(b) <==> a.service == b.service && a.name == b.name
  {
    ServiceOfKey(a);
    ServiceOfKey(b);
    assert MethodKey(a)[|a.service| + 1..] == a.name && MethodKey(b)[|b.service| + 1..] == b.name;
  }

  function BeforeDot(s: string): string {
    if s == "" || s[0] == '.' then "" else [s[0]] + BeforeDot(s[1..])
  }

  lemma ServiceOfKey(call: Call)
    requires '.' !in call.service
    ensures BeforeDot(MethodKey(call)) == call.service
  {
    BeforeDotOf(call.service, call.name);
  }

  lemma {:induction false} BeforeDotOf(head: string, rest: string)
    requires '.' !in head
    ensures BeforeDot(head + "." + rest) == head
  {
    if head != "" {
      BeforeDotOf(head[1..], rest);
      assert (head + "." + rest)[1..] == head[1..] + "." + rest;
    }
  }

  /** With a dot in either name, another method has the same key. */
  lemma DottedNamesCollide(a: Call) returns (b: Call)
    requires '.' in a.service || '.' in a.name
    ensures MethodKey(b) == MethodKey(a) && b.service != a.service
  {
    if '.' in a.service {
      DotIsFound(a.service);
      var head, tail := BeforeDot(a.service), a.service[|BeforeDot(a.service)| + 1..];
      b := a.(service := head, name := tail + "." + a.name);
      assert head + "." + (tail + "." + a.name) == (head + "." + tail) + "." + a.name;
      assert |b.service| < |a.service|;
    } else {
      DotIsFound(a.name);
      var head, tail := BeforeDot(a.name), a.name[|BeforeDot(a.name)| + 1..];
      b := a.(service := a.service + "." + head, name := tail);
      assert (a.service + "." + head) + "." + tail == a.service + "." + (head + "." + tail);
      assert |b.service| > |a.service|;
    }
  }

  /** A key tells its method exactly when neither the service name nor the method name holds a dot. */
  lemma KeyIsUnambiguousIff(a: Call)
    ensures (forall b: Call :: MethodKey(b) == MethodKey(a) ==> b.service == a.service && b.name == a.name)
            <==> '.' !in a.service && '.' !in a.name
  {
    hide MethodKey;
    if '.' in a.service || '.' in a.name {
      var b := DottedNamesCollide(a);
    } else {
      forall b: Call | MethodKey(b) == MethodKey(a) ensures b.service == a.service && b.name == a.name {
        OneDot(a, b);
      }
    }
  }

  lemma {:induction false} DotIsFound(s: string)
    requires '.' in s
    ensures |BeforeDot(s)| < |s| && s == BeforeDot(s) + "." + s[|BeforeDot(s)| + 1..]
  {
    if s[0] != '.' {
      assert s == [s[0]] + s[1..];
      DotIsFound(s[1..]);
    } else {
      assert s == "" + "." + s[1..];
    }
  }

  /** Where a key has one dot only, it is the dot between service and name. */
  lemma OneDot(a: Call, b: Call)
    requires '.' !in a.service && '.' !in a.name && MethodKey(a) == MethodKey(b)
    ensures b.service == a.service && b.name == a.name
  {
    assert MethodKey(b)[|b.service|] == '.';
    assert MethodKey(a)[..|a.service|] == a.service && MethodKey(b)[..|b.service|] == b.service;
    assert MethodKey(a)[|a.service| + 1..] == a.name && MethodKey(b)[|b.service| + 1..] == b.name;
  }

  /** The shortest case of a dotted name: two methods, one key. */
  lemma DottedServicesCollide(args: seq<byte>)
    ensures MethodKey(Call("a.b", "c", args, 0, "", 0)) == MethodKey(Call("a", "b.c", args, 0, "", 0))
  {
    assert "a.b" + "." + "c" == "a.b.c" == "a" + "." + "b.c";
  }
}
