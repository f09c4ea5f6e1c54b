/**
 The RPC transport down to its bytes: requests and answers are encoded, framed and carried by two byte
 streams, which a failed write may leave torn. Every run of this system is a run of RpcTransport, so what
 holds of messages there holds of bytes here.
 */
module RpcWire {
  import opened Common
  import opened Frame
  import opened RpcTransport

  /** The message codec, and the frame limits of the two ends. */
  datatype Config = Config(
    request: Request -> Bytes, toRequest: Bytes -> Option<Request>,
    response: Response -> Bytes, toResponse: Bytes -> Option<Response>,
    clientLimit: Limit, serverLimit: Limit)

  /** Decoding undoes encoding, and no encoding is empty. RpcCodec has a codec that is. */
  ghost predicate Faithful(c: Config) {
    && (forall r :: c.toRequest(c.request(r)) == Some(r) && c.request(r) != [])
    && (forall r :: c.toResponse(c.response(r)) == Some(r) && c.response(r) != [])
  }

  /** What a frame can carry: a longer payload would be cut by the writer's own length check. */
  predicate Sendable(payload: Bytes) {
    0 < |payload| < TWO_32
  }

  /** `s` keeps the logs and the client; what crosses the connection is only in the streams and in `held`. */
  datatype System = System(
    s: State,
    up: Bytes,               // request stream, and how far the server has read it
    upRead: nat,
    down: Bytes,             // answer stream, and how far the response loop has read it
    downRead: nat,
    held: Option<Response>,  // the answer the loop has decoded but not handed over
    serving: bool
  )

  datatype Move =
    | Local(act: Action)                                      // nothing crosses the connection
    | SendWhole(a: nat)
    | SendCut(a: nat, n: nat)                                 // refused, or failed after n bytes of the frame
    | ServeNext(outcome: Outcome, n: nat, goesOn: bool)       // n bytes of the answer's frame get out
    | ReadAnswer
    | HandOver

  predicate IsLocal(act: Action) {
    !act.Send? && !act.SendFails? && !act.Serve? && !act.ServeTorn? && !act.LoopRead? && !act.LoopDeliver? && !act.LoopDrop?
  }

  function RequestOf(s: State, a: nat): Request
    requires a < |s.attempts|
  {
    Request(Id(s.attempts[a].ticket), s.attempts[a].call)
  }

  predicate Possible(c: Config, w: System, m: Move) {
    match m
    case Local(act) => IsLocal(act) && Enabled(w.s, act) && (act.LoopExit? ==> w.held == None)
    case SendWhole(a) =>
      && At(w.s, a, Registered) && !w.s.connClosed
      && var payload := c.request(RequestOf(w.s, a));
         Sendable(payload) && WriteAccepts(payload, c.clientLimit)
    case SendCut(a, n) =>
      && At(w.s, a, Registered)
      && var payload := c.request(RequestOf(w.s, a));
         n <= |Encode(payload)| && (n > 0 ==> Sendable(payload) && WriteAccepts(payload, c.clientLimit))
    case ServeNext(outcome, n, goesOn) =>
      && w.serving && w.upRead <= |w.up| && Parse(w.up[w.upRead..], c.serverLimit).0.Frame?
      && var answer := c.response(Answer(c, w, outcome));
         && Sendable(answer) && n <= |Encode(answer)|
         && (n > 0 || goesOn ==> WriteAccepts(answer, c.serverLimit)) && (goesOn ==> n == |Encode(answer)|)
    case ReadAnswer =>
      w.s.loopAlive && w.held == None && w.downRead <= |w.down| && Parse(w.down[w.downRead..], c.clientLimit).0.Frame?
    case HandOver => w.s.loopAlive && w.held.Some?
  }

  /** The frame the server reads next, decoded. */
  function Incoming(c: Config, w: System): Option<Request>
    requires w.upRead <= |w.up| && Parse(w.up[w.upRead..], c.serverLimit).0.Frame?
  {
    c.toRequest(Parse(w.up[w.upRead..], c.serverLimit).0.payload)
  }

  function Answer(c: Config, w: System, outcome: Outcome): Response
    requires w.upRead <= |w.up| && Parse(w.up[w.upRead..], c.serverLimit).0.Frame?
  {
    HandleRequest(w.s.methods, Incoming(c, w), outcome)
  }

  /** What n bytes of a request's frame amount to. */
  function OutOf(c: Config, w: System, a: nat, n: nat): Out
    requires a < |w.s.attempts|
  {
    if n == 0 then Unwritten else if n == |Encode(c.request(RequestOf(w.s, a)))| then Whole else Part
  }

  function Do(c: Config, w: System, m: Move): System
    requires Possible(c, w, m)
  {
    match m
    case Local(act) => w.(s := Apply(w.s, act))
    case SendWhole(a) =>
      var r := RequestOf(w.s, a);
      w.(s := Stamp(w.s, a, Sent).(sent := w.s.sent + [r]), up := w.up + Encode(c.request(r)))
    case SendCut(a, n) =>
      var r := RequestOf(w.s, a);
      var out := OutOf(c, w, a, n);
      w.(s := Stamp(w.s, a, Unsent).(sent := if out == Whole then w.s.sent + [r] else w.s.sent,
                                     tear := if out == Part && w.s.tear == None then Some(|w.s.sent|) else w.s.tear),
         up := w.up + Encode(c.request(r))[..n])
    case ServeNext(outcome, n, goesOn) =>
      var rest := Parse(w.up[w.upRead..], c.serverLimit).1;
      var answer := Answer(c, w, outcome);
      w.(s := w.s.(served := w.s.served + [Served(Incoming(c, w), outcome, answer)]),
         upRead := |w.up| - |rest|, down := w.down + Encode(c.response(answer))[..n], serving := goesOn)
    case ReadAnswer =>
      var (read, rest) := Parse(w.down[w.downRead..], c.clientLimit);
      var w' := w.(downRead := |w.down| - |rest|, held := c.toResponse(read.payload));
      if w'.held == None then w'
      else w'.(s := w.s.(inHand := Some(w.s.delivered), delivered := w.s.delivered + 1))
    case HandOver =>
      var index := if w.s.inHand.Some? then w.s.inHand.value else 0;
      w.(s := w.s.(client := Deliver(w.s.client, index, w.held.value), inHand := None), held := None)
  }

  // ---------------------------------------------------------------- bytes against messages

  function RequestBytes(c: Config, rs: seq<Request>): (ps: seq<Bytes>)
    ensures |ps| == |rs|
  {
    seq(|rs|, i requires 0 <= i < |rs| => c.request(rs[i]))
  }

  function AnswerBytes(c: Config, served: seq<Served>): (ps: seq<Bytes>)
    ensures |ps| == |served|
  {
    seq(|served|, i requires 0 <= i < |served| => c.response(served[i].response))
  }

  /** The request stream begins with the frames of the requests written whole before the first torn one. */
  predicate UpAgrees(c: Config, w: System) {
    && (forall i :: 0 <= i < |w.s.sent| ==> Sendable(c.request(w.s.sent[i])))
    && Clean(w.s) <= |w.s.sent|
    && EncodeAll(RequestBytes(c, w.s.sent[..Clean(w.s)])) <= w.up
    && (w.s.tear == None ==> w.up == EncodeAll(RequestBytes(c, w.s.sent)) && |w.s.served| <= |w.s.sent|)
    && (|w.s.served| <= Clean(w.s) ==> w.upRead == |EncodeAll(RequestBytes(c, w.s.sent[..|w.s.served|]))|)
  }

  /** The answer stream is the frames of the answers, or was cut somewhere when the server gave up. */
  predicate DownAgrees(c: Config, w: System) {
    && (forall i :: 0 <= i < |w.s.served| ==> Sendable(c.response(w.s.served[i].response)))
    && w.down <= EncodeAll(AnswerBytes(c, w.s.served))
    && (w.serving ==> w.down == EncodeAll(AnswerBytes(c, w.s.served)))
    && w.s.delivered <= |w.s.served|
    && w.downRead == |EncodeAll(AnswerBytes(c, w.s.served[..w.s.delivered]))| <= |w.down|
  }

  predicate HandAgrees(w: System) {
    && (w.held.Some? <==> w.s.inHand.Some?)
    && (w.held.Some? ==> w.s.inHand.value < |w.s.served| && w.held.value == w.s.served[w.s.inHand.value].response)
  }

  predicate Agrees(c: Config, w: System) {
    UpAgrees(c, w) && DownAgrees(c, w) && HandAgrees(w)
  }

  /** The step on messages that a move on bytes amounts to. */
  function Abstract(c: Config, w: System, m: Move): Action
    requires Possible(c, w, m)
  {
    match m
    case Local(act) => act
    case SendWhole(a) => Send(a)
    case SendCut(a, n) => SendFails(a, OutOf(c, w, a, n))
    case ServeNext(outcome, _, _) =>
      if |w.s.served| < Clean(w.s) then Serve(true, outcome) else ServeTorn(Incoming(c, w), outcome)
    case ReadAnswer => LoopRead
    case HandOver => LoopDeliver
  }

  // ---------------------------------------------------------------- reading what was written

  /** If a reader takes a frame from a stream that starts inside Encode(payload) + rest, it takes the payload. */
  lemma ReadsTheFirst(payload: Bytes, rest: Bytes, stream: Bytes, limit: Limit)
    requires Sendable(payload) && stream <= Encode(payload) + rest && Parse(stream, limit).0.Frame?
    ensures |Encode(payload)| <= |stream|
    ensures Parse(stream, limit) == (Frame.Frame(payload), stream[|Encode(payload)|..])
  {
    HeaderHoldsLowBits(|payload|);
    hide PutUint32, Uint32;
    var n := HEADER_SIZE + |payload|;
    assert stream[..HEADER_SIZE] == (Encode(payload) + rest)[..HEADER_SIZE] == PutUint32(|payload|);
    assert Uint32(stream[..HEADER_SIZE]) == |payload|;
    assert stream[HEADER_SIZE..n] == (Encode(payload) + rest)[HEADER_SIZE..n] == payload;
    assert stream[HEADER_SIZE..][..|payload|] == stream[HEADER_SIZE..n];
    assert stream[HEADER_SIZE..][|payload|..] == stream[n..];
  }

  /** From frame i on, a reader of a prefix of the encoded stream can only take frame i. */
  lemma ReadsTheNext(ps: seq<Bytes>, stream: Bytes, i: nat, limit: Limit)
    requires forall p :: p in ps ==> Sendable(p)
    requires stream <= EncodeAll(ps) && i <= |ps| && |EncodeAll(ps[..i])| <= |stream|
    requires Parse(stream[|EncodeAll(ps[..i])|..], limit).0.Frame?
    ensures i < |ps|
    ensures var (read, rest) := Parse(stream[|EncodeAll(ps[..i])|..], limit);
            read == Frame.Frame(ps[i]) && |stream| - |rest| == |EncodeAll(ps[..i + 1])| <= |stream|
  {
    hide Parse, Encode;
    var at := |EncodeAll(ps[..i])|;
    EncodeAllSplits(ps, i);
    assert stream[at..] <= EncodeAll(ps[i..]);
    FrameNeedsBytes(stream[at..], limit);
    assert ps[i..] != [];
    assert ps[i..][0] == ps[i] && ps[i] in ps;
    ReadsTheFirst(ps[i], EncodeAll(ps[i..][1..]), stream[at..], limit);
    EncodeAllGrows(ps, i);
  }

  lemma FrameNeedsBytes(stream: Bytes, limit: Limit)
    ensures Parse(stream, limit).0.Frame? ==> stream != []
  {
  }

  /** The server reads the next request that was sent, as long as it has not reached a torn one. */
  lemma ServerReads(c: Config, w: System)
    requires Faithful(c) && UpAgrees(c, w) && w.upRead <= |w.up| && Parse(w.up[w.upRead..], c.serverLimit).0.Frame?
    ensures |w.s.served| < Clean(w.s) <= |w.s.sent| || w.s.tear.Some?
    ensures Clean(w.s) <= |w.s.sent|
    ensures |w.s.served| < Clean(w.s) ==>
              && Incoming(c, w) == Some(w.s.sent[|w.s.served|])
              && |w.up| - |Parse(w.up[w.upRead..], c.serverLimit).1| == |EncodeAll(RequestBytes(c, w.s.sent[..|w.s.served| + 1]))|
  {
    hide Parse, EncodeAll, Faithful, Sendable;
    var i := |w.s.served|;
    if i < Clean(w.s) {
      ServerReadsOne(c, w.up, w.s.sent, Clean(w.s), i);
      DecodesRequest(c, w.s.sent[i]);
    } else {
      AllIsRead(c, w);
      FrameNeedsBytes(w.up[w.upRead..], c.serverLimit);
    }
  }

  lemma AllIsRead(c: Config, w: System)
    requires UpAgrees(c, w) && |w.s.served| >= Clean(w.s)
    ensures w.s.tear == None ==> w.upRead == |w.up|
  {
    assert w.s.sent[..|w.s.sent|] == w.s.sent;
  }

  lemma DecodesRequest(c: Config, r: Request)
    requires Faithful(c)
    ensures c.toRequest(c.request(r)) == Some(r)
  {
  }

  lemma DecodesAnswer(c: Config, r: Response)
    requires Faithful(c)
    ensures c.toResponse(c.response(r)) == Some(r)
  {
  }

  lemma MiddleOfStream(ps: seq<Bytes>, stream: Bytes, i: nat) returns (rest: Bytes)
    requires i < |ps| && EncodeAll(ps) <= stream
    ensures |EncodeAll(ps[..i])| <= |stream| && stream[|EncodeAll(ps[..i])|..] == Encode(ps[i]) + rest
    ensures |EncodeAll(ps[..i + 1])| == |EncodeAll(ps[..i])| + |Encode(ps[i])|
  {
    hide Encode, EncodeAll;
    EncodeAllSplits(ps, i);
    EncodeAllGrows(ps, i);
    FirstOfRest(ps, i);
    var at, after := |EncodeAll(ps[..i])|, stream[|EncodeAll(ps)|..];
    rest := EncodeAll(ps[i..][1..]) + after;
    assert stream == EncodeAll(ps[..i]) + (Encode(ps[i]) + rest);
  }

  lemma FirstOfRest(ps: seq<Bytes>, i: nat)
    requires i < |ps|
    ensures EncodeAll(ps[i..]) == Encode(ps[i]) + EncodeAll(ps[i..][1..])
  {
    hide Encode;
  }

  lemma ServerReadsOne(c: Config, up: Bytes, sent: seq<Request>, clean: nat, i: nat)
    requires i < clean <= |sent| && EncodeAll(RequestBytes(c, sent[..clean])) <= up && Sendable(c.request(sent[i]))
    ensures |EncodeAll(RequestBytes(c, sent[..i]))| <= |up|
    ensures var (read, rest) := Parse(up[|EncodeAll(RequestBytes(c, sent[..i]))|..], c.serverLimit);
            read.Frame? ==> read.payload == c.request(sent[i]) && |up| - |rest| == |EncodeAll(RequestBytes(c, sent[..i + 1]))|
  {
    var ps := RequestBytes(c, sent[..clean]);
    assert ps[..i] == RequestBytes(c, sent[..i]) && ps[..i + 1] == RequestBytes(c, sent[..i + 1]);
    hide Parse, Encode, EncodeAll, Sendable;
    var rest := MiddleOfStream(ps, up, i);
    var here := up[|EncodeAll(ps[..i])|..];
    if Parse(here, c.serverLimit).0.Frame? {
      ReadsTheFirst(ps[i], rest, here, c.serverLimit);
    }
  }

  /** The response loop reads the next answer that was given. */
  lemma LoopReads(c: Config, w: System)
    requires Faithful(c) && DownAgrees(c, w) && Parse(w.down[w.downRead..], c.clientLimit).0.Frame?
    ensures w.s.delivered < |w.s.served|
    ensures var (read, rest) := Parse(w.down[w.downRead..], c.clientLimit);
            && c.toResponse(read.payload) == Some(w.s.served[w.s.delivered].response)
            && |w.down| - |rest| == |EncodeAll(AnswerBytes(c, w.s.served[..w.s.delivered + 1]))| <= |w.down|
  {
    var ps, i := AnswerBytes(c, w.s.served), w.s.delivered;
    assert ps[..i] == AnswerBytes(c, w.s.served[..i]);
    hide Parse, EncodeAll, Faithful, Sendable;
    ReadsTheNext(ps, w.down, i, c.clientLimit);
    assert ps[..i + 1] == AnswerBytes(c, w.s.served[..i + 1]);
    DecodesAnswer(c, w.s.served[i].response);
  }

  // ---------------------------------------------------------------- every move is a step on messages

  lemma LocalAgrees(c: Config, w: System, act: Action)
    requires Agrees(c, w) && Possible(c, w, Local(act))
    ensures Agrees(c, Do(c, w, Local(act)))
  {
    LocalMovesNothing(w.s, act);
    hide Enabled, Apply, EncodeAll, Parse;
  }

  lemma LocalMovesNothing(s: State, act: Action)
    requires IsLocal(act) && Enabled(s, act)
    ensures var s' := Apply(s, act);
            && s'.sent == s.sent && s'.tear == s.tear && s'.served == s.served
            && s'.delivered == s.delivered && s'.inHand == s.inHand
  {
  }

  lemma OneMoreFrame(ps: seq<Bytes>, p: Bytes)
    ensures EncodeAll(ps + [p]) == EncodeAll(ps) + Encode(p)
  {
    EncodeAllGrows(ps + [p], |ps|);
    assert (ps + [p])[..|ps|] == ps && (ps + [p])[..|ps| + 1] == ps + [p];
  }

  /** One more whole frame on the request stream is one more request sent. */
  lemma OneMoreRequest(c: Config, w: System, a: nat, stage: Stage)
    requires UpAgrees(c, w) && a < |w.s.attempts| && Sendable(c.request(RequestOf(w.s, a)))
    ensures var r := RequestOf(w.s, a);
            UpAgrees(c, w.(s := Stamp(w.s, a, stage).(sent := w.s.sent + [r]), up := w.up + Encode(c.request(r))))
  {
    hide Encode, EncodeAll;
    var r, sent := RequestOf(w.s, a), w.s.sent;
    OneMoreFrame(RequestBytes(c, sent), c.request(r));
    assert RequestBytes(c, sent + [r]) == RequestBytes(c, sent) + [c.request(r)];
    assert forall k :: 0 <= k <= |sent| ==> (sent + [r])[..k] == sent[..k];
    assert (sent + [r])[..|sent| + 1] == sent + [r];
  }

  lemma SendWholeAgrees(c: Config, w: System, a: nat)
    requires Agrees(c, w) && Possible(c, w, SendWhole(a))
    ensures Agrees(c, Do(c, w, SendWhole(a))) && Enabled(w.s, Send(a))
    ensures Do(c, w, SendWhole(a)).s == Apply(w.s, Send(a))
  {
    hide Encode, EncodeAll, UpAgrees;
    OneMoreRequest(c, w, a, Sent);
  }

  lemma SendCutAgrees(c: Config, w: System, a: nat, n: nat)
    requires Agrees(c, w) && Possible(c, w, SendCut(a, n))
    ensures Agrees(c, Do(c, w, SendCut(a, n))) && Enabled(w.s, SendFails(a, OutOf(c, w, a, n)))
    ensures Do(c, w, SendCut(a, n)).s == Apply(w.s, SendFails(a, OutOf(c, w, a, n)))
  {
    hide Encode, EncodeAll, UpAgrees;
    if OutOf(c, w, a, n) == Whole {
      OneMoreRequest(c, w, a, Unsent);
      assert Encode(c.request(RequestOf(w.s, a)))[..n] == Encode(c.request(RequestOf(w.s, a)));
    } else {
      PartAgrees(c, w, a, n);
    }
  }

  lemma PartAgrees(c: Config, w: System, a: nat, n: nat)
    requires UpAgrees(c, w) && Possible(c, w, SendCut(a, n)) && OutOf(c, w, a, n) != Whole
    ensures UpAgrees(c, Do(c, w, SendCut(a, n)))
  {
    hide Encode, EncodeAll;
    assert w.s.sent[..|w.s.sent|] == w.s.sent;
    assert w.up + [] == w.up;
  }

  lemma ServeNextAgrees(c: Config, w: System, outcome: Outcome, n: nat, goesOn: bool)
    requires Faithful(c) && Agrees(c, w) && Possible(c, w, ServeNext(outcome, n, goesOn))
    ensures var m := ServeNext(outcome, n, goesOn);
            && Agrees(c, Do(c, w, m)) && Enabled(w.s, Abstract(c, w, m))
            && Do(c, w, m).s == Apply(w.s, Abstract(c, w, m))
  {
    hide Parse, EncodeAll, Encode, Faithful, HandleRequest, UpAgrees, DownAgrees;
    ServerReads(c, w);
    ServedUp(c, w, outcome, n, goesOn);
    ServedDown(c, w, outcome, n, goesOn);
  }

  lemma ServedUp(c: Config, w: System, outcome: Outcome, n: nat, goesOn: bool)
    requires Faithful(c) && UpAgrees(c, w) && Possible(c, w, ServeNext(outcome, n, goesOn))
    ensures UpAgrees(c, Do(c, w, ServeNext(outcome, n, goesOn)))
  {
    ServerReads(c, w);
    hide Parse, EncodeAll, Encode, Faithful, HandleRequest;
  }

  lemma ServedDown(c: Config, w: System, outcome: Outcome, n: nat, goesOn: bool)
    requires DownAgrees(c, w) && Possible(c, w, ServeNext(outcome, n, goesOn))
    ensures DownAgrees(c, Do(c, w, ServeNext(outcome, n, goesOn)))
  {
    hide Parse, EncodeAll, Encode, HandleRequest;
    var served, one := w.s.served, Served(Incoming(c, w), outcome, Answer(c, w, outcome));
    OneMoreFrame(AnswerBytes(c, served), c.response(one.response));
    assert AnswerBytes(c, served + [one]) == AnswerBytes(c, served) + [c.response(one.response)];
    assert (served + [one])[..w.s.delivered] == served[..w.s.delivered];
  }

  lemma ReadAnswerAgrees(c: Config, w: System)
    requires Faithful(c) && Agrees(c, w) && Possible(c, w, ReadAnswer)
    ensures Agrees(c, Do(c, w, ReadAnswer)) && Enabled(w.s, LoopRead)
    ensures Do(c, w, ReadAnswer).s == Apply(w.s, LoopRead)
  {
    hide Parse, EncodeAll, Faithful, UpAgrees, DownAgrees;
    LoopReads(c, w);
    ReadAnswerKeepsUp(c, w);
    ReadAnswerKeepsDown(c, w);
  }

  lemma ReadAnswerKeepsUp(c: Config, w: System)
    requires UpAgrees(c, w) && Possible(c, w, ReadAnswer)
    ensures UpAgrees(c, Do(c, w, ReadAnswer))
  {
    hide Parse, EncodeAll, Encode;
  }

  lemma ReadAnswerKeepsDown(c: Config, w: System)
    requires Faithful(c) && DownAgrees(c, w) && Possible(c, w, ReadAnswer)
    ensures DownAgrees(c, Do(c, w, ReadAnswer))
  {
    hide Parse, EncodeAll, Encode, Faithful;
    LoopReads(c, w);
  }

  lemma HandOverAgrees(c: Config, w: System)
    requires Agrees(c, w) && Possible(c, w, HandOver)
    ensures Agrees(c, Do(c, w, HandOver)) && Enabled(w.s, LoopDeliver)
    ensures Do(c, w, HandOver).s == Apply(w.s, LoopDeliver)
  {
    hide EncodeAll, Parse;
  }

  /** Simulation: a possible move on bytes does to the messages what an enabled step of RpcTransport does. */
  lemma MoveIsAStep(c: Config, w: System, m: Move)
    requires Faithful(c) && Agrees(c, w) && Possible(c, w, m)
    ensures Enabled(w.s, Abstract(c, w, m)) && Do(c, w, m).s == Apply(w.s, Abstract(c, w, m))
    ensures Agrees(c, Do(c, w, m))
  {
    match m
    case Local(act) =>
      LocalAgrees(c, w, act);
    case SendWhole(a) =>
      hide Agrees;
      SendWholeAgrees(c, w, a);
    case SendCut(a, n) =>
      hide Agrees;
      SendCutAgrees(c, w, a, n);
    case ServeNext(outcome, n, goesOn) =>
      hide Agrees;
      ServeNextAgrees(c, w, outcome, n, goesOn);
    case ReadAnswer =>
      hide Agrees;
      ReadAnswerAgrees(c, w);
    case HandOver =>
      hide Agrees;
      HandOverAgrees(c, w);
  }

  // ---------------------------------------------------------------- runs

  predicate Moves(c: Config, w: System, ms: seq<Move>)
    decreases |ms|
  {
    ms == [] || (Possible(c, w, ms[0]) && Moves(c, Do(c, w, ms[0]), ms[1..]))
  }

  function After(c: Config, w: System, ms: seq<Move>): System
    requires Moves(c, w, ms)
    decreases |ms|
  {
    if ms == [] then w else After(c, Do(c, w, ms[0]), ms[1..])
  }

  predicate Begins(w: System) {
    Init(w.s) && w.up == [] && w.upRead == 0 && w.down == [] && w.downRead == 0 && w.held == None && w.serving
  }

  lemma {:induction false} BytesRefineMessages(c: Config, w: System, ms: seq<Move>) returns (acts: seq<Action>)
    requires Faithful(c) && Agrees(c, w) && Moves(c, w, ms)
    ensures Runs(w.s, acts) && Exec(w.s, acts) == After(c, w, ms).s
    ensures Agrees(c, After(c, w, ms))
    decreases |ms|
  {
    hide Possible, Do, Enabled, Apply, Abstract, Agrees, Faithful;
    if ms == [] {
      acts := [];
    } else {
      MoveIsAStep(c, w, ms[0]);
      var rest := BytesRefineMessages(c, Do(c, w, ms[0]), ms[1..]);
      acts := [Abstract(c, w, ms[0])] + rest;
      assert acts[1..] == rest;
    }
  }

  lemma BeginsAgrees(c: Config, w: System)
    requires Begins(w)
    ensures Agrees(c, w)
  {
    assert RequestBytes(c, []) == [] && AnswerBytes(c, []) == [];
  }

  /** The server handled the call's own request, in its i-th answer, and the handler came to these data. */
  predicate HandledAs(s: State, a: nat, i: nat, data: seq<byte>)
    requires a < |s.attempts|
  {
    && i < |s.served| && s.served[i].incoming == Some(RequestOf(s, a))
    && MethodKey(s.attempts[a].call) in s.methods
    && (s.served[i].outcome == Success(data) || (s.served[i].outcome == Failure("") && data == []))
  }

  /**
   End to end. In every interleaving on two byte streams, with any number of callers, timeouts, torn requests,
   answers cut off and teardowns, as long as fewer than 2^64 IDs were handed out: a call that has returned data
   took them from an answer of the server, and unless that came after a torn request, it is the server's answer
   to the call's own request, by a method that exists and a handler that succeeded with just those data, or
   failed with an empty text (then without data).
   */
  lemma EndToEnd(c: Config, init: System, ms: seq<Move>, a: nat, data: seq<byte>)
    requires Faithful(c) && Begins(init) && Moves(c, init, ms)
    requires var s := After(c, init, ms).s;
             s.client.issued < ID_SPACE && a < |s.attempts| && s.attempts[a].stage == Returned(Data(data))
    ensures var s := After(c, init, ms).s;
            && s.attempts[a].reply.Some? && s.attempts[a].reply.value.Got?
            && var i := s.attempts[a].reply.value.index;
               && (s.tear == None ==> i < Clean(s))
               && (i < Clean(s) ==> HandledAs(s, a, i, data))
  {
    hide Runs, Exec, Moves, After, Agrees, Faithful, Init;
    BeginsAgrees(c, init);
    var acts := BytesRefineMessages(c, init, ms);
    var s := After(c, init, ms).s;
    InitOf(init);
    DataComesFromAnAnswer(init.s, acts, a);
    var reply := s.attempts[a].reply.value;
    if reply.index < Clean(s) {
      AnswerIsOwn(init.s, acts, a, reply.index, reply.response);
      TicketsFit(init.s, acts, a);
    }
  }

  lemma InitOf(w: System)
    requires Begins(w)
    ensures Init(w.s)
  {
  }

  lemma TicketsFit(init: State, acts: seq<Action>, a: nat)
    requires Reached(init, acts) && a < |Exec(init, acts).attempts|
    ensures Id(Exec(init, acts).attempts[a].ticket) == Exec(init, acts).attempts[a].ticket
  {
    ReachedInv(init, acts);
  }
}
