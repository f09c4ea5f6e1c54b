/**
 A codec for requests and answers that decodes what it encodes. It stands for the library's: it shows that the
 law RpcWire asks of a codec can be met, and that a call over the wire can then succeed.
 */
module RpcCodec {
  import opened Common
  import opened Frame
  import opened RpcTransport
  import opened RpcWire

  // ---------------------------------------------------------------- numbers as bytes

  /** A number as that many ones and a zero. */
  function Unary(n: nat): Bytes {
    if n == 0 then [0] else [1] + Unary(n - 1)
  }

  function Code(numbers: seq<nat>): Bytes {
    if numbers == [] then [] else Unary(numbers[0]) + Code(numbers[1..])
  }

  /** Reads numbers off; `n` counts the ones of the number being read. */
  function Numbers(bytes: Bytes, n: nat): seq<nat> {
    if bytes == [] then []
    else if bytes[0] == 0 then [n] + Numbers(bytes[1..], 0)
    else Numbers(bytes[1..], n + 1)
  }

  lemma {:induction false} NumbersOfUnary(n: nat, k: nat, rest: Bytes)
    ensures Numbers(Unary(n) + rest, k) == [n + k] + Numbers(rest, 0)
  {
    var bytes := Unary(n) + rest;
    if n == 0 {
      assert bytes[1..] == rest;
    } else {
      assert bytes[1..] == Unary(n - 1) + rest;
      NumbersOfUnary(n - 1, k + 1, rest);
    }
  }

  lemma {:induction false} NumbersOfCode(numbers: seq<nat>)
    ensures Numbers(Code(numbers), 0) == numbers
  {
    if numbers != [] {
      NumbersOfUnary(numbers[0], 0, Code(numbers[1..]));
      NumbersOfCode(numbers[1..]);
    }
  }

  // ---------------------------------------------------------------- fields as numbers

  /** Each field behind its length. */
  function Flat(fields: seq<seq<nat>>): seq<nat> {
    if fields == [] then [] else [|fields[0]|] + fields[0] + Flat(fields[1..])
  }

  function Fields(numbers: seq<nat>): seq<seq<nat>> {
    if numbers == [] || numbers[0] >= |numbers| then []
    else [numbers[1..numbers[0] + 1]] + Fields(numbers[numbers[0] + 1..])
  }

  lemma {:induction false} FieldsOfFlat(fields: seq<seq<nat>>)
    ensures Fields(Flat(fields)) == fields
  {
    if fields != [] {
      var field, rest := fields[0], Flat(fields[1..]);
      var numbers := [|field|] + field + rest;
      assert numbers[1..|field| + 1] == field && numbers[|field| + 1..] == rest;
      FieldsOfFlat(fields[1..]);
    }
  }

  function Pack(fields: seq<seq<nat>>): Bytes {
    Code(Flat(fields))
  }

  function Unpack(bytes: Bytes): seq<seq<nat>> {
    Fields(Numbers(bytes, 0))
  }

  lemma UnpackOfPack(fields: seq<seq<nat>>)
    ensures Unpack(Pack(fields)) == fields
    ensures fields != [] ==> Pack(fields) != []
  {
    NumbersOfCode(Flat(fields));
    FieldsOfFlat(fields);
    if fields != [] {
      assert Flat(fields) != [] && |Unary(Flat(fields)[0])| > 0;
    }
  }

  // ---------------------------------------------------------------- messages as fields

  function CharCodes(s: string): seq<nat> {
    seq(|s|, i requires 0 <= i < |s| => s[i] as int)
  }

  function Chars(codes: seq<nat>): string {
    seq(|codes|, i requires 0 <= i < |codes| => ToChar(codes[i]))
  }

  function ToChar(code: nat): char {
    if code < 0xD800 || 0xE000 <= code < 0x110000 then code as char else '?'
  }

  lemma CharsOfCodes(s: string)
    ensures Chars(CharCodes(s)) == s
  {
  }

  function ByteCodes(bytes: Bytes): seq<nat> {
    seq(|bytes|, i requires 0 <= i < |bytes| => bytes[i])
  }

  function ToBytes(codes: seq<nat>): Bytes {
    seq(|codes|, i requires 0 <= i < |codes| => if codes[i] < 256 then codes[i] else 0)
  }

  lemma BytesOfCodes(bytes: Bytes)
    ensures ToBytes(ByteCodes(bytes)) == bytes
  {
  }

  function RequestFields(r: Request): seq<seq<nat>> {
    [[r.id, r.call.userID, r.call.timeout], CharCodes(r.call.service), CharCodes(r.call.name),
     ByteCodes(r.call.args), CharCodes(r.call.session)]
  }

  function FromRequestFields(f: seq<seq<nat>>): Option<Request> {
    if |f| == 5 && |f[0]| == 3
    then Some(Request(f[0][0], Call(Chars(f[1]), Chars(f[2]), ToBytes(f[3]), f[0][1], Chars(f[4]), f[0][2])))
    else None
  }

  function ResponseFields(r: Response): seq<seq<nat>> {
    [[r.id], CharCodes(r.error), ByteCodes(r.data)]
  }

  function FromResponseFields(f: seq<seq<nat>>): Option<Response> {
    if |f| == 3 && |f[0]| == 1 then Some(Response(f[0][0], Chars(f[1]), ToBytes(f[2]))) else None
  }

  function Codec(clientLimit: Limit, serverLimit: Limit): Config {
    Config(r => Pack(RequestFields(r)), b => FromRequestFields(Unpack(b)),
           r => Pack(ResponseFields(r)), b => FromResponseFields(Unpack(b)), clientLimit, serverLimit)
  }

  lemma CodecIsFaithful(clientLimit: Limit, serverLimit: Limit)
    ensures Faithful(Codec(clientLimit, serverLimit))
  {
    var c := Codec(clientLimit, serverLimit);
    forall r: Request ensures c.toRequest(c.request(r)) == Some(r) && c.request(r) != [] {
      RequestSurvives(r);
    }
    forall r: Response ensures c.toResponse(c.response(r)) == Some(r) && c.response(r) != [] {
      ResponseSurvives(r);
    }
  }

  lemma RequestSurvives(r: Request)
    ensures FromRequestFields(Unpack(Pack(RequestFields(r)))) == Some(r) && Pack(RequestFields(r)) != []
  {
    hide Pack, Unpack;
    UnpackOfPack(RequestFields(r));
    CharsOfCodes(r.call.service);
    CharsOfCodes(r.call.name);
    CharsOfCodes(r.call.session);
    BytesOfCodes(r.call.args);
  }

  lemma ResponseSurvives(r: Response)
    ensures FromResponseFields(Unpack(Pack(ResponseFields(r)))) == Some(r) && Pack(ResponseFields(r)) != []
  {
    hide Pack, Unpack;
    UnpackOfPack(ResponseFields(r));
    CharsOfCodes(r.error);
    BytesOfCodes(r.data);
  }

  // ---------------------------------------------------------------- a call that succeeds

  /** A frame that both ends let through. */
  predicate Passes(c: Config, payload: Bytes) {
    Sendable(payload) && |payload| <= EffectiveLimit(c.clientLimit) && |payload| <= EffectiveLimit(c.serverLimit)
  }

  /** One attempt at the system, under ID 1, which has taken `reply` from its channel; nothing is torn. */
  predicate Alone(w: System, call: Call, stage: Stage, reply: Option<Reply>, slot: Option<Reply>) {
    && w.s.attempts == [Attempt(call, stage, 1, reply)] && w.s.client.slots == [slot]
    && w.s.client.issued == 1 && w.s.client.running && w.s.loopAlive && !w.s.connClosed && w.s.tear == None
  }

  /** A run of moves after which the call has returned the data. */
  predicate Succeeds(c: Config, w: System, ms: seq<Move>, data: seq<byte>) {
    && Moves(c, w, ms) && After(c, w, ms).s.client.issued == 1 && After(c, w, ms).s.tear == None
    && |After(c, w, ms).s.attempts| == 1 && After(c, w, ms).s.attempts[0].stage == Returned(Data(data))
  }

  lemma FirstMove(c: Config, w: System, m: Move, ms: seq<Move>, data: seq<byte>)
    requires Possible(c, w, m) && Succeeds(c, Do(c, w, m), ms, data)
    ensures Succeeds(c, w, [m] + ms, data)
  {
    hide Possible, Do;
    assert ([m] + ms)[1..] == ms;
  }

  /** From an answer in the channel on. */
  lemma TakesAndReturns(c: Config, w: System, call: Call, response: Response) returns (ms: seq<Move>)
    requires Alone(w, call, Sent, None, Some(Got(0, response))) && response.error == ""
    ensures Succeeds(c, w, ms, response.data)
  {
    var w1 := Do(c, w, Local(Take(0)));
    var w2 := Do(c, w1, Local(Return(0)));
    FirstMove(c, w1, Local(Return(0)), [], response.data);
    FirstMove(c, w, Local(Take(0)), [Local(Return(0))] + [], response.data);
    ms := [Local(Take(0))] + ([Local(Return(0))] + []);
  }

  /** From an answer on the stream on. */
  lemma ReadsAndHandsOver(c: Config, w: System, call: Call, response: Response) returns (ms: seq<Move>)
    requires Faithful(c) && Passes(c, c.response(response)) && response.error == "" && response.id == 1
    requires Alone(w, call, Sent, None, None) && w.s.client.callbacks == map[1 := 0]
    requires w.s.delivered == 0 && w.held == None && w.s.inHand == None
    requires w.down == Encode(c.response(response)) && w.downRead == 0
    ensures Succeeds(c, w, ms, response.data)
  {
    hide Parse, Encode, Succeeds;
    ReadsAlone(c.response(response), w.down, c.clientLimit);
    DecodesAnswer(c, response);
    hide Faithful;
    var w1 := Do(c, w, ReadAnswer);
    var w2 := Do(c, w1, HandOver);
    var rest := TakesAndReturns(c, w2, call, response);
    FirstMove(c, w1, HandOver, rest, response.data);
    FirstMove(c, w, ReadAnswer, [HandOver] + rest, response.data);
    ms := [ReadAnswer] + ([HandOver] + rest);
  }

  lemma ReadsAlone(payload: Bytes, stream: Bytes, limit: Limit)
    requires stream == Encode(payload) && Fits(payload, limit)
    ensures stream[0..] == stream && Parse(stream, limit) == (Frame.Frame(payload), [])
  {
    ParseOfFrame(payload, [], limit);
    assert Encode(payload) + [] == Encode(payload);
  }

  /** From a request on the stream on. */
  lemma ServesIt(c: Config, w: System, call: Call, data: seq<byte>) returns (ms: seq<Move>)
    requires Faithful(c) && Passes(c, c.request(Request(1, call))) && Passes(c, c.response(Response(1, "", data)))
    requires MethodKey(call) in w.s.methods
    requires Alone(w, call, Sent, None, None) && w.s.client.callbacks == map[1 := 0]
    requires w.s.served == [] && w.s.delivered == 0 && w.held == None && w.s.inHand == None && w.serving
    requires w.up == Encode(c.request(Request(1, call))) && w.upRead == 0 && w.down == [] && w.downRead == 0
    ensures Succeeds(c, w, ms, data)
  {
    hide Parse, Encode, Succeeds, MethodKey;
    var r, answer := Request(1, call), c.response(Response(1, "", data));
    ReadsAlone(c.request(r), w.up, c.serverLimit);
    DecodesRequest(c, r);
    hide Faithful;
    var m := ServeNext(Success(data), |Encode(answer)|, true);
    SmallIsAccepted(answer, c.serverLimit);
    hide WriteAccepts;
    var w1 := Do(c, w, m);
    assert Encode(answer)[..|Encode(answer)|] == Encode(answer) && [] + Encode(answer) == Encode(answer);
    var rest := ReadsAndHandsOver(c, w1, call, Response(1, "", data));
    FirstMove(c, w, m, rest, data);
    ms := [m] + rest;
  }

  lemma SmallIsAccepted(payload: Bytes, limit: Limit)
    requires Sendable(payload) && |payload| <= EffectiveLimit(limit)
    ensures WriteAccepts(payload, limit)
  {
  }

  /** From a registered call on. */
  lemma SendsIt(c: Config, w: System, call: Call, data: seq<byte>) returns (ms: seq<Move>)
    requires Faithful(c) && Passes(c, c.request(Request(1, call))) && Passes(c, c.response(Response(1, "", data)))
    requires MethodKey(call) in w.s.methods
    requires Alone(w, call, Registered, None, None) && w.s.client.callbacks == map[1 := 0]
    requires w.s.served == [] && w.s.delivered == 0 && w.held == None && w.s.inHand == None && w.serving
    requires w.up == [] && w.upRead == 0 && w.down == [] && w.downRead == 0
    ensures Succeeds(c, w, ms, data)
  {
    hide Parse, Encode, Succeeds, MethodKey, Faithful;
    SmallIsAccepted(c.request(Request(1, call)), c.clientLimit);
    hide WriteAccepts;
    var w1 := Do(c, w, SendWhole(0));
    assert [] + Encode(c.request(Request(1, call))) == Encode(c.request(Request(1, call)));
    var rest := ServesIt(c, w1, call, data);
    FirstMove(c, w, SendWhole(0), rest, data);
    ms := [SendWhole(0)] + rest;
  }

  /**
   The promise of RpcWire.EndToEnd is not empty: over any codec that decodes what it encodes, a call of a method
   that exists can return any data, if its request and its answer fit the limits of both ends.
   */
  lemma ACallCanSucceed(c: Config, init: System, call: Call, data: seq<byte>) returns (ms: seq<Move>)
    requires Faithful(c) && Passes(c, c.request(Request(1, call))) && Passes(c, c.response(Response(1, "", data)))
    requires Begins(init) && MethodKey(call) in init.s.methods
    ensures Succeeds(c, init, ms, data)
  {
    hide Parse, Encode, Succeeds, MethodKey, Faithful, Passes;
    var w1 := Do(c, init, Local(Enter(call)));
    var w2 := Do(c, w1, Local(Issue(0)));
    var w3 := Do(c, w2, Local(Register(0)));
    var rest := SendsIt(c, w3, call, data);
    FirstMove(c, w2, Local(Register(0)), rest, data);
    FirstMove(c, w1, Local(Issue(0)), [Local(Register(0))] + rest, data);
    ms := [Local(Enter(call))] + ([Local(Issue(0))] + ([Local(Register(0))] + rest));
    FirstMove(c, init, Local(Enter(call)), [Local(Issue(0))] + ([Local(Register(0))] + rest), data);
  }
}
