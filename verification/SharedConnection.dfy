/**
 Several writers on one connection. Each takes the write lock, hands its bytes to the socket in chunks of any
 size, and lets the lock go; a reader at the other end takes frames off the stream. A write may fail after any
 number of bytes, and the lock is let go then too. Most writers write one frame at a time; nothing but that makes
 their bytes a frame, and a broadcast writes whatever it is given.
 */
module SharedConnection {
  import opened Common
  import opened Frame
  import opened RawWrites

  /** A write, and the writer it belongs to. */
  datatype Item = Item(writer: nat, data: Bytes)

  /** A write that got the lock; `dropped` once it has failed without a byte of it getting out. */
  datatype Try = Try(item: Item, dropped: bool)

  /** The first torn write: how many writes were whole before it, and how long the stream was with its part. */
  datatype Tear = Tear(writes: nat, bytes: nat)

  datatype State = State(
    scripts: seq<seq<Bytes>>,   // what each writer wants to write, never changed
    limit: Limit,
    todo: seq<seq<Bytes>>,      // what each writer has still to begin
    holder: Option<nat>,        // who holds the write lock
    owed: Bytes,                // what the holder has still to hand over
    stream: Bytes,              // everything the socket has taken
    tried: seq<Try>,            // writes in the order they got the lock
    log: seq<Item>,             // those that were not dropped
    tear: Option<Tear>,
    got: seq<Bytes>,            // frames the reader has taken
    cursor: nat,                // how far into the stream it is
    closed: bool,
    closes: nat                 // how often the socket itself was closed
  )

  datatype Action = Lock(w: nat) | Chunk(n: nat) | Unlock | Fail(n: nat) | ReadOne | Close | Reset

  predicate Init(s: State) {
    && s.todo == s.scripts && s.holder == None && s.owed == [] && s.stream == [] && s.log == [] && s.tried == []
    && s.tear == None && s.got == [] && s.cursor == 0 && !s.closed && s.closes == 0
  }

  predicate Enabled(s: State, a: Action) {
    match a
    case Lock(w) => s.holder == None && w < |s.todo| && s.todo[w] != []
    case Chunk(n) => s.holder.Some? && 0 < n <= |s.owed|
    case Unlock => s.holder.Some? && s.owed == []
    case Fail(n) => s.holder.Some? && n <= |s.owed| && s.log != [] && s.tried != []
    case ReadOne => s.cursor <= |s.stream| && Parse(s.stream[s.cursor..], s.limit).0.Frame?
    case Close => true
    case Reset => true
  }

  /** What a write that fails after n more bytes leaves on the stream. */
  datatype Out = Unwritten | Part | Whole

  function Left(s: State, n: nat): Out
    requires Enabled(s, Fail(n))
  {
    if n == |s.owed| then Whole
    else if n == 0 && |s.owed| == |s.log[|s.log| - 1].data| then Unwritten
    else Part
  }

  function Failed(s: State, n: nat): State
    requires Enabled(s, Fail(n))
  {
    var s' := s.(stream := s.stream + s.owed[..n], owed := [], holder := None);
    var last := |s.tried| - 1;
    match Left(s, n)
    case Whole => s'
    case Unwritten => s'.(tried := s.tried[last := s.tried[last].(dropped := true)], log := s.log[..|s.log| - 1])
    case Part => s'.(tear := if s.tear.Some? then s.tear else Some(Tear(|s.log| - 1, |s'.stream|)))
  }

  function Apply(s: State, a: Action): State
    requires Enabled(s, a)
  {
    match a
    case Lock(w) =>
      var data := s.todo[w][0];
      s.(holder := Some(w), owed := data, todo := s.todo[w := s.todo[w][1..]],
         tried := s.tried + [Try(Item(w, data), false)], log := s.log + [Item(w, data)])
    case Chunk(n) =>
      s.(stream := s.stream + s.owed[..n], owed := s.owed[n..])
    case Unlock =>
      s.(holder := None)
    case Fail(n) => Failed(s, n)
    case ReadOne =>
      var (read, rest) := Parse(s.stream[s.cursor..], s.limit);
      s.(got := s.got + [read.payload], cursor := |s.stream| - |rest|)
    case Close =>
      if s.closed then s else s.(closed := true, closes := s.closes + 1)
    case Reset =>
      s.(closed := false)
  }

  predicate Runs(s: State, acts: seq<Action>)
    decreases |acts|
  {
    acts == [] || (Enabled(s, acts[0]) && Runs(Apply(s, acts[0]), acts[1..]))
  }

  function Exec(s: State, acts: seq<Action>): State
    requires Runs(s, acts)
    decreases |acts|
  {
    if acts == [] then s else Exec(Apply(s, acts[0]), acts[1..])
  }

  lemma {:induction false} RunGrows(s: State, acts: seq<Action>, a: Action)
    requires Runs(s, acts) && Enabled(Exec(s, acts), a)
    ensures Runs(s, acts + [a]) && Exec(s, acts + [a]) == Apply(Exec(s, acts), a)
    decreases |acts|
  {
    if acts == [] {
      assert [] + [a] == [a] && [a][1..] == [];
    } else {
      RunGrows(Apply(s, acts[0]), acts[1..], a);
      assert (acts + [a])[1..] == acts[1..] + [a];
    }
  }

  // ---------------------------------------------------------------- what every step keeps of the writes

  function Items(tried: seq<Try>): (items: seq<Item>)
    ensures |items| == |tried|
  {
    seq(|tried|, i requires 0 <= i < |tried| => tried[i].item)
  }

  /** The writes that were not dropped. */
  function Kept(tried: seq<Try>): seq<Item> {
    if tried == [] then []
    else
      var last := tried[|tried| - 1];
      Kept(tried[..|tried| - 1]) + if last.dropped then [] else [last.item]
  }

  /** What one writer wrote, in log order. */
  function By(w: nat, log: seq<Item>): seq<Bytes> {
    if log == [] then []
    else By(w, log[..|log| - 1]) + if log[|log| - 1].writer == w then [log[|log| - 1].data] else []
  }

  /** The bytes of the writes, one after the other. */
  function Joined(log: seq<Item>): Bytes {
    if log == [] then [] else Joined(log[..|log| - 1]) + log[|log| - 1].data
  }

  /** The stream up to the end of the first torn write. */
  function Clean(s: State): Bytes {
    if s.tear.Some? && s.tear.value.bytes <= |s.stream| then s.stream[..s.tear.value.bytes] else s.stream
  }

  /** The writes that are whole in the clean stream. */
  function WholeCount(s: State): nat {
    if s.tear.Some? then s.tear.value.writes
    else if s.owed != [] && s.log != [] then |s.log| - 1
    else |s.log|
  }

  predicate WritersKeepOrder(s: State) {
    && |s.todo| == |s.scripts|
    && (forall w :: 0 <= w < |s.scripts| ==> s.scripts[w] == By(w, Items(s.tried)) + s.todo[w])
    && s.log == Kept(s.tried)
  }

  predicate LockShape(s: State) {
    && (s.holder == None ==> s.owed == [])
    && (s.holder.Some? ==>
          && s.log != [] && |s.owed| <= |s.log[|s.log| - 1].data|
          && s.tried != [] && !s.tried[|s.tried| - 1].dropped
          && (s.tear.Some? ==> s.tear.value.writes < |s.log| - 1))
  }

  predicate StreamIsWrites(s: State) {
    match s.tear
    case None => s.stream + s.owed == Joined(s.log)
    case Some(Tear(writes, bytes)) =>
      && writes < |s.log| && bytes <= |s.stream|
      && s.stream[..bytes] <= Joined(s.log[..writes + 1])
      && |Joined(s.log[..writes])| < bytes < |Joined(s.log[..writes + 1])|
  }

  predicate Inv(s: State) {
    && WritersKeepOrder(s) && LockShape(s) && StreamIsWrites(s)
    && ReaderFollows(s.stream, s.got, s.cursor, s.limit)
  }

  lemma OneMoreWritten(log: seq<Item>, w: nat, data: Bytes)
    ensures By(w, log + [Item(w, data)]) == By(w, log) + [data]
    ensures forall v: nat :: v != w ==> By(v, log + [Item(w, data)]) == By(v, log)
    ensures Joined(log + [Item(w, data)]) == Joined(log) + data
  {
    var log' := log + [Item(w, data)];
    assert log'[..|log|] == log;
    forall v: nat | v != w ensures By(v, log') == By(v, log) {
      assert By(v, log') == By(v, log) + [];
    }
  }

  lemma JoinedGrows(log: seq<Item>, k: nat)
    requires k < |log|
    ensures Joined(log[..k + 1]) == Joined(log[..k]) + log[k].data
  {
    assert log[..k + 1][..k] == log[..k];
  }

  lemma {:induction false} JoinedIsPrefix(log: seq<Item>, k: nat)
    requires k <= |log|
    ensures Joined(log[..k]) <= Joined(log)
  {
    if k < |log| {
      JoinedIsPrefix(log[..|log| - 1], k);
      assert log[..|log| - 1][..k] == log[..k];
    } else {
      assert log[..k] == log;
    }
  }

  lemma OneMoreTried(tried: seq<Try>, item: Item)
    ensures Items(tried + [Try(item, false)]) == Items(tried) + [item]
    ensures Kept(tried + [Try(item, false)]) == Kept(tried) + [item]
  {
    assert (tried + [Try(item, false)])[..|tried|] == tried;
  }

  lemma LockKeepsOrder(s: State, w: nat)
    requires WritersKeepOrder(s) && Enabled(s, Lock(w))
    ensures WritersKeepOrder(Apply(s, Lock(w)))
  {
    hide By, Items, Kept, Joined, Parse;
    var s' := Apply(s, Lock(w));
    var data := s.todo[w][0];
    OneMoreTried(s.tried, Item(w, data));
    OneMoreWritten(Items(s.tried), w, data);
    assert s.scripts[w][|By(w, Items(s.tried))|] == data;
    assert s.todo[w] == [data] + s.todo[w][1..];
    assert s'.scripts[w] == By(w, Items(s'.tried)) + s'.todo[w];
  }

  lemma LockKeepsInv(s: State, w: nat)
    requires Inv(s) && Enabled(s, Lock(w))
    ensures Inv(Apply(s, Lock(w)))
  {
    hide By, Items, Kept, Joined, Parse, ReaderFollows, WritersKeepOrder;
    var s' := Apply(s, Lock(w));
    LockKeepsOrder(s, w);
    OneMoreWritten(s.log, w, s.todo[w][0]);
    assert s.stream + [] == s.stream;
    if s.tear.Some? {
      var k := s.tear.value.writes;
      assert s'.log[..k] == s.log[..k] && s'.log[..k + 1] == s.log[..k + 1];
    }
  }

  lemma ChunkKeepsInv(s: State, n: nat)
    requires Inv(s) && Enabled(s, Chunk(n))
    ensures Inv(Apply(s, Chunk(n)))
  {
    hide By, Items, Kept, Joined, Parse, ReaderFollows;
    var s' := Apply(s, Chunk(n));
    assert s.owed == s.owed[..n] + s.owed[n..];
    assert s'.stream + s'.owed == s.stream + s.owed;
    ReaderFollowsOn(s.stream, s.owed[..n], s.got, s.cursor, s.limit);
    if s.tear.Some? {
      assert s'.stream[..s.tear.value.bytes] == s.stream[..s.tear.value.bytes];
    }
  }

  /** Dropping the last write takes it off the log and nothing else. */
  lemma LastIsDropped(tried: seq<Try>)
    requires tried != [] && !tried[|tried| - 1].dropped
    ensures var last := |tried| - 1;
            var tried' := tried[last := tried[last].(dropped := true)];
            && Items(tried') == Items(tried) && Kept(tried) != []
            && Kept(tried') == Kept(tried)[..|Kept(tried)| - 1]
  {
    var last := |tried| - 1;
    var tried' := tried[last := tried[last].(dropped := true)];
    assert tried'[..last] == tried[..last];
    assert Kept(tried) == Kept(tried[..last]) + [tried[last].item];
  }

  lemma FailKeepsInv(s: State, n: nat)
    requires Inv(s) && Enabled(s, Fail(n))
    ensures Inv(Apply(s, Fail(n)))
  {
    hide By, Items, Kept, Joined, Parse, ReaderFollows, WritersKeepOrder, LockShape, StreamIsWrites, Left;
    ReaderFollowsOn(s.stream, s.owed[..n], s.got, s.cursor, s.limit);
    FailKeepsOrder(s, n);
    match Left(s, n)
    case Whole => WholeFailKeepsStream(s, n);
    case Unwritten => DropKeepsStream(s, n);
    case Part => PartFailKeepsStream(s, n);
  }

  lemma FailKeepsOrder(s: State, n: nat)
    requires WritersKeepOrder(s) && LockShape(s) && Enabled(s, Fail(n))
    ensures WritersKeepOrder(Apply(s, Fail(n))) && LockShape(Apply(s, Fail(n)))
  {
    hide By, Items, Kept, Parse;
    if Left(s, n) == Unwritten {
      LastIsDropped(s.tried);
    }
  }

  lemma WholeFailKeepsStream(s: State, n: nat)
    requires StreamIsWrites(s) && LockShape(s) && Enabled(s, Fail(n)) && Left(s, n) == Whole
    ensures StreamIsWrites(Apply(s, Fail(n)))
  {
    hide Joined, Parse;
    var s' := Apply(s, Fail(n));
    assert s.owed[..n] == s.owed;
    assert s'.stream + [] == s'.stream;
    if s.tear.Some? {
      assert s'.stream[..s.tear.value.bytes] == s.stream[..s.tear.value.bytes];
    }
  }

  lemma DropKeepsStream(s: State, n: nat)
    requires StreamIsWrites(s) && LockShape(s) && Enabled(s, Fail(n)) && Left(s, n) == Unwritten
    ensures StreamIsWrites(Apply(s, Fail(n)))
  {
    hide Joined, Parse;
    var s', k := Apply(s, Fail(n)), |s.log| - 1;
    assert s'.stream == s.stream && s'.stream + [] == s.stream;
    if s.tear.Some? {
      var j := s.tear.value.writes;
      assert s'.log[..j] == s.log[..j] && s'.log[..j + 1] == s.log[..j + 1];
    } else {
      JoinedGrows(s.log, k);
      assert s.log[..k + 1] == s.log;
      assert (s.stream + s.owed)[..|s.stream|] == s.stream;
      assert (Joined(s.log[..k]) + s.log[k].data)[..|s.stream|] == Joined(s.log[..k]);
    }
  }

  lemma PartFailKeepsStream(s: State, n: nat)
    requires StreamIsWrites(s) && LockShape(s) && Enabled(s, Fail(n)) && Left(s, n) == Part
    ensures StreamIsWrites(Apply(s, Fail(n)))
  {
    hide Joined, Parse;
    var s', k := Apply(s, Fail(n)), |s.log| - 1;
    if s.tear.Some? {
      assert s'.stream[..s.tear.value.bytes] == s.stream[..s.tear.value.bytes];
    } else {
      JoinedGrows(s.log, k);
      assert s.log[..k + 1] == s.log;
      assert s.stream + s.owed == s'.stream + s.owed[n..];
      assert s'.stream[..|s'.stream|] == s'.stream;
    }
  }

  lemma StepKeepsInv(s: State, a: Action)
    requires Inv(s) && Enabled(s, a)
    ensures Inv(Apply(s, a))
  {
    match a
    case Lock(w) => LockKeepsInv(s, w);
    case Chunk(n) => ChunkKeepsInv(s, n);
    case Fail(n) => FailKeepsInv(s, n);
    case ReadOne => ReadKeepsInv(s);
    case _ => FlagsKeepInv(s, a);
  }

  lemma FlagsKeepInv(s: State, a: Action)
    requires Inv(s) && Enabled(s, a) && (a.Unlock? || a.Close? || a.Reset?)
    ensures Inv(Apply(s, a))
  {
    hide By, Items, Kept, Joined, Parse, ReaderFollows;
  }

  lemma ReadKeepsInv(s: State)
    requires Inv(s) && Enabled(s, ReadOne)
    ensures Inv(Apply(s, ReadOne))
  {
    hide By, Items, Kept, Joined, Parse, ReaderFollows;
    ReaderTakesOne(s.stream, s.got, s.cursor, s.limit);
  }

  lemma {:induction false} RunKeepsInv(s: State, acts: seq<Action>)
    requires Inv(s) && Runs(s, acts)
    ensures Inv(Exec(s, acts))
    decreases |acts|
  {
    hide Inv, Enabled, Apply;
    if acts != [] {
      StepKeepsInv(s, acts[0]);
      RunKeepsInv(Apply(s, acts[0]), acts[1..]);
    }
  }

  lemma InitIsInv(s: State)
    requires Init(s)
    ensures Inv(s)
  {
  }

  lemma {:induction false} RunKeepsScripts(s: State, acts: seq<Action>)
    requires Runs(s, acts)
    ensures Exec(s, acts).scripts == s.scripts && Exec(s, acts).limit == s.limit
    decreases |acts|
  {
    if acts != [] {
      RunKeepsScripts(Apply(s, acts[0]), acts[1..]);
    }
  }

  // ---------------------------------------------------------------- the reader, on any stream

  /** A reader of the stream has taken these frames and stands at the cursor. */
  predicate ReaderFollows(stream: Bytes, got: seq<Bytes>, cursor: nat, limit: Limit)
    decreases |got|
  {
    cursor <= |stream| &&
    if got == [] then cursor == 0
    else
      var (read, rest) := Parse(stream, limit);
      && read == Frame.Frame(got[0]) && |stream| - |rest| <= cursor && rest == stream[|stream| - |rest|..]
      && ReaderFollows(rest, got[1..], cursor - (|stream| - |rest|), limit)
  }

  lemma {:induction false} ReaderFollowsOn(stream: Bytes, more: Bytes, got: seq<Bytes>, cursor: nat, limit: Limit)
    requires ReaderFollows(stream, got, cursor, limit)
    ensures ReaderFollows(stream + more, got, cursor, limit)
    decreases |got|
  {
    hide Parse;
    if got != [] {
      FrameStays(stream, more, limit);
      var rest := Parse(stream, limit).1;
      ReaderFollowsOn(rest, more, got[1..], cursor - (|stream| - |rest|), limit);
    }
  }

  /** A frame at the head of a stream is there whatever comes behind. */
  lemma FrameStays(stream: Bytes, more: Bytes, limit: Limit)
    requires Parse(stream, limit).0.Frame?
    ensures var (read, rest) := Parse(stream, limit);
            Parse(stream + more, limit) == (read, rest + more) && rest == stream[|stream| - |rest|..]
    ensures var rest := Parse(stream, limit).1;
            rest + more == (stream + more)[|stream| - |rest|..]
  {
    var (read, rest) := Parse(stream, limit);
    FrameIsEncoded(stream, limit);
    ParseOfFrame(read.payload, rest + more, limit);
    assert stream + more == Encode(read.payload) + (rest + more);
  }

  lemma ParseTakesFromFront(stream: Bytes, limit: Limit)
    ensures |Parse(stream, limit).1| <= |stream|
    ensures var (read, rest) := Parse(stream, limit);
            read.Frame? ==> rest == stream[|stream| - |rest|..]
  {
  }

  lemma {:induction false} ReaderTakesOne(stream: Bytes, got: seq<Bytes>, cursor: nat, limit: Limit)
    requires ReaderFollows(stream, got, cursor, limit) && Parse(stream[cursor..], limit).0.Frame?
    ensures var (read, rest) := Parse(stream[cursor..], limit);
            |rest| <= |stream| && ReaderFollows(stream, got + [read.payload], |stream| - |rest|, limit)
    decreases |got|
  {
    hide Parse;
    ParseTakesFromFront(stream[cursor..], limit);
    var (read, left) := Parse(stream[cursor..], limit);
    if got == [] {
      assert stream[0..] == stream;
      assert ([] + [read.payload])[1..] == [];
    } else {
      var rest := Parse(stream, limit).1;
      var past := |stream| - |rest|;
      assert rest[cursor - past..] == stream[cursor..];
      ReaderTakesOne(rest, got[1..], cursor - past, limit);
      assert (got + [read.payload])[1..] == got[1..] + [read.payload];
    }
  }

  /** What a reader has taken, and what it would take still, are the frames of the stream. */
  lemma {:induction false} ReaderTakesFrames(stream: Bytes, got: seq<Bytes>, cursor: nat, limit: Limit)
    requires ReaderFollows(stream, got, cursor, limit)
    ensures ParseAll(stream, limit).0 == got + ParseAll(stream[cursor..], limit).0
    decreases |got|
  {
    hide Parse;
    if got == [] {
      assert stream[0..] == stream;
    } else {
      var rest := Parse(stream, limit).1;
      var past := |stream| - |rest|;
      assert rest[cursor - past..] == stream[cursor..];
      ReaderTakesFrames(rest, got[1..], cursor - past, limit);
      assert got == [got[0]] + got[1..];
    }
  }

  // ---------------------------------------------------------------- main results

  /** The writes that are whole before the first torn one. */
  function WholeWrites(s: State): seq<Item> {
    if WholeCount(s) <= |s.log| then s.log[..WholeCount(s)] else s.log
  }

  /**
   In every interleaving, and whatever bytes are written, the stream up to the first torn write is whole writes
   and at most a proper part of the next. It is a merge of what the writers write: what each writer tried, in
   order, followed by what it has not begun, is what it set out to write, and the log is what was tried except
   for the writes that failed before a byte got out. A failed write that got all of its bytes out, or none,
   breaks nothing; only one that got a proper part out tears the stream.
   */
  lemma StreamIsMergeOfWriters(init: State, acts: seq<Action>)
    requires Init(init) && Runs(init, acts)
    ensures var s := Exec(init, acts);
            && WholeCount(s) <= |s.log| && (exists part: Bytes :: CleanIs(s, part))
            && |s.todo| == |init.scripts| && s.log == Kept(s.tried)
            && (forall w :: 0 <= w < |init.scripts| ==> init.scripts[w] == By(w, Items(s.tried)) + s.todo[w])
  {
    hide Runs, Exec, Init, By, Items, Kept, CleanIs, StreamIsWrites, LockShape, ReaderFollows, Clean, WholeCount;
    InitIsInv(init);
    RunKeepsInv(init, acts);
    RunKeepsScripts(init, acts);
    var part := CleanSplits(Exec(init, acts));
  }

  /** The clean stream is its whole writes, then a proper part of the next write begun, which may be nothing. */
  predicate CleanIs(s: State, part: Bytes) {
    && Clean(s) == Joined(WholeWrites(s)) + part
    && (part != [] ==> WholeCount(s) < |s.log| && part < s.log[WholeCount(s)].data)
  }

  lemma CleanSplits(s: State) returns (part: Bytes)
    requires Inv(s)
    ensures CleanIs(s, part) && WholeCount(s) <= |s.log| && Clean(s) == Joined(WholeWrites(s)) + part
  {
    hide Joined, ReaderFollows, WritersKeepOrder, LockShape, StreamIsWrites, Clean, WholeCount;
    CleanIsPrefix(s);
    var k := WholeCount(s);
    part := Clean(s)[|Joined(s.log[..k])|..];
    if k < |s.log| {
      JoinedGrows(s.log, k);
      ProperPart(Joined(s.log[..k]), s.log[k].data, Clean(s));
    } else {
      assert s.log[..k] == s.log;
    }
  }

  lemma ProperPart(whole: Bytes, data: Bytes, clean: Bytes)
    requires whole <= clean <= whole + data && |clean| < |whole + data|
    ensures clean == whole + clean[|whole|..] && clean[|whole|..] < data
  {
    assert clean[|whole|..] == (whole + data)[|whole|..|clean|] == data[..|clean| - |whole|];
  }

  lemma CleanIsPrefix(s: State)
    requires StreamIsWrites(s) && LockShape(s)
    ensures WholeCount(s) <= |s.log| && Joined(s.log[..WholeCount(s)]) <= Clean(s)
    ensures WholeCount(s) == |s.log| ==> Clean(s) == Joined(s.log)
    ensures WholeCount(s) < |s.log| ==>
              var next := Joined(s.log[..WholeCount(s) + 1]);
              Clean(s) <= next && |Clean(s)| < |next|
  {
    hide Joined;
    var k := WholeCount(s);
    if s.tear.Some? {
      JoinedGrows(s.log, k);
      assert Clean(s) == s.stream[..s.tear.value.bytes];
      var next := Joined(s.log[..k + 1]);
      assert next[..|Clean(s)|] == Clean(s);
      assert next[..|Joined(s.log[..k])|] == Joined(s.log[..k]);
    } else if s.owed != [] {
      JoinedGrows(s.log, k);
      assert s.log[..k + 1] == s.log;
      assert (s.stream + s.owed)[..|s.stream|] == s.stream;
      assert (s.stream + s.owed)[..|Joined(s.log[..k])|] == Joined(s.log[..k]);
    } else {
      assert s.stream + [] == s.stream && s.log[..k] == s.log;
    }
  }

  /** One frame, as all writers but a broadcast write it. */
  predicate OneFrame(data: Bytes, limit: Limit) {
    |data| > HEADER_SIZE && Fits(data[HEADER_SIZE..], limit) && data == Encode(data[HEADER_SIZE..])
  }

  function PayloadsOf(log: seq<Item>, limit: Limit): seq<Bytes> {
    if log == [] then []
    else PayloadsOf(log[..|log| - 1], limit) + ParseAll(log[|log| - 1].data, limit).0
  }

  predicate AllFramed(log: seq<Item>, limit: Limit) {
    forall i :: 0 <= i < |log| ==> Framed(log[i].data, limit)
  }

  predicate AllOneFrame(log: seq<Item>, limit: Limit) {
    forall i :: 0 <= i < |log| ==> OneFrame(log[i].data, limit)
  }

  /**
   If all that was written is whole frames, a reader of the stream up to the first torn write takes the frames of
   the whole writes, in order, then those that are whole in the part of the next write. By
   RawBytesAreTransparentIff, a write that is not whole frames breaks this for what comes behind it.
   */
  lemma FramedWritesAreRead(init: State, acts: seq<Action>)
    requires Init(init) && Runs(init, acts) && AllFramed(Exec(init, acts).log, init.limit)
    ensures var s := Exec(init, acts);
            exists part: Bytes :: CleanIs(s, part) &&
              ParseAll(Clean(s), s.limit).0 == PayloadsOf(WholeWrites(s), s.limit) + ParseAll(part, s.limit).0
  {
    hide Runs, Exec, Init, By, Items, Kept, CleanIs, StreamIsWrites, LockShape, ReaderFollows, Clean, WholeCount, ParseAll;
    InitIsInv(init);
    RunKeepsInv(init, acts);
    RunKeepsScripts(init, acts);
    var s := Exec(init, acts);
    var part := CleanSplits(s);
    FramedThenRest(WholeWrites(s), part, s.limit);
  }

  lemma {:induction false} FramedThenRest(log: seq<Item>, rest: Bytes, limit: Limit)
    requires AllFramed(log, limit)
    ensures ParseAll(Joined(log) + rest, limit).0 == PayloadsOf(log, limit) + ParseAll(rest, limit).0
  {
    hide ParseAll, EncodeAll;
    if log == [] {
      assert Joined(log) + rest == rest;
      assert [] + ParseAll(rest, limit).0 == ParseAll(rest, limit).0;
    } else {
      var init, data := log[..|log| - 1], log[|log| - 1].data;
      var own := ParseAll(data, limit).0;
      var left := FramesThenLeftover(data, limit);
      EncodedThenRest(own, rest, limit);
      FramedThenRest(init, data + rest, limit);
      assert Joined(log) + rest == Joined(init) + (data + rest);
    }
  }

  lemma OneFrameIsRead(data: Bytes, limit: Limit)
    requires OneFrame(data, limit)
    ensures ParseAll(data, limit).0 == [data[HEADER_SIZE..]] && Framed(data, limit)
  {
    var payload := data[HEADER_SIZE..];
    StreamRoundTrip([payload], limit);
    assert EncodeAll([payload]) == Encode(payload) + [] == data;
  }

  lemma PartOfFrameIsNotRead(data: Bytes, part: Bytes, limit: Limit)
    requires OneFrame(data, limit) && part < data
    ensures ParseAll(part, limit).0 == []
  {
    ParseOfCutFrame(data[HEADER_SIZE..], |part|, limit);
    assert part == data[..|part|];
  }

  lemma {:induction false} OneFrameEach(log: seq<Item>, limit: Limit)
    requires AllOneFrame(log, limit)
    ensures AllFramed(log, limit) && |PayloadsOf(log, limit)| == |log|
    ensures forall i :: 0 <= i < |log| ==> PayloadsOf(log, limit)[i] == log[i].data[HEADER_SIZE..]
  {
    hide ParseAll, Framed, OneFrame;
    if log != [] {
      var init := log[..|log| - 1];
      OneFrameEach(init, limit);
      OneFrameIsRead(log[|log| - 1].data, limit);
      forall i | 0 <= i < |log| ensures Framed(log[i].data, limit) {
        assert i < |init| ==> init[i] == log[i];
      }
    }
  }

  /** What a reader of the stream has taken, if every write is one frame: the whole writes' payloads, then nothing. */
  lemma FramesOfTheStream(s: State)
    requires Inv(s) && AllOneFrame(s.log, s.limit)
    ensures WholeCount(s) <= |s.log| && |PayloadsOf(WholeWrites(s), s.limit)| == WholeCount(s)
    ensures ParseAll(Clean(s), s.limit).0 == PayloadsOf(WholeWrites(s), s.limit)
    ensures Clean(s) <= s.stream && (s.tear == None ==> Clean(s) == s.stream)
  {
    hide By, Items, Kept, Joined, ReaderFollows, ParseAll, OneFrame, WritersKeepOrder, CleanIs;
    var part := CleanSplits(s);
    OneFrameEach(WholeWrites(s), s.limit);
    FramedThenRest(WholeWrites(s), part, s.limit);
    PartIsNotRead(s, part);
    assert PayloadsOf(WholeWrites(s), s.limit) + [] == PayloadsOf(WholeWrites(s), s.limit);
  }

  lemma PartIsNotRead(s: State, part: Bytes)
    requires CleanIs(s, part) && AllOneFrame(s.log, s.limit)
    ensures ParseAll(part, s.limit).0 == []
  {
    if part != [] {
      PartOfFrameIsNotRead(s.log[WholeCount(s)].data, part, s.limit);
    }
  }

  /**
   First in, first out: at every moment of every interleaving in which every write is one frame, the i-th frame
   the reader took is the i-th that got onto the stream, as long as it was whole before the first torn one; and
   whatever is written, the frames it took are those of the stream, in order.
   */
  lemma ReaderGetsFramesInOrder(init: State, acts: seq<Action>)
    requires Init(init) && Runs(init, acts)
    ensures var s := Exec(init, acts);
            && s.got <= ParseAll(s.stream, s.limit).0
            && (AllOneFrame(s.log, s.limit) ==>
                  && WholeCount(s) <= |s.log|
                  && (forall i :: 0 <= i < |s.got| && i < WholeCount(s) ==> s.got[i] == s.log[i].data[HEADER_SIZE..])
                  && (s.tear == None ==> |s.got| <= WholeCount(s)))
  {
    hide Runs, Exec, Init, WholeCount, ParseAll, OneFrame, WritersKeepOrder, StreamIsWrites, LockShape, Clean;
    InitIsInv(init);
    RunKeepsInv(init, acts);
    var s := Exec(init, acts);
    ReaderTakesFrames(s.stream, s.got, s.cursor, s.limit);
    if AllOneFrame(s.log, s.limit) {
      FramesOfTheStream(s);
      OneFrameEach(WholeWrites(s), s.limit);
      PayloadsStay(s);
    }
  }

  lemma PayloadsStay(s: State)
    requires Clean(s) <= s.stream
    ensures ParseAll(Clean(s), s.limit).0 <= ParseAll(s.stream, s.limit).0
  {
    hide ParseAll;
    AppendKeepsFrames(Clean(s), s.stream[|Clean(s)|..], s.limit);
    assert s.stream == Clean(s) + s.stream[|Clean(s)|..];
  }

  /** While no write is torn, a reader that has taken every whole frame finds at most a cut one. */
  lemma NothingWholeLeft(s: State)
    requires Inv(s) && AllOneFrame(s.log, s.limit) && s.tear == None && |s.got| == WholeCount(s)
    ensures !Enabled(s, ReadOne)
  {
    hide WritersKeepOrder, StreamIsWrites, LockShape, OneFrame, Joined;
    FramesOfTheStream(s);
    ReaderTakesFrames(s.stream, s.got, s.cursor, s.limit);
    assert ParseAll(s.stream[s.cursor..], s.limit).0 == [];
  }

  // ---------------------------------------------------------------- what breaks the promises

  /**
   A torn frame is the limit of these promises: here the first writer fails inside its frame, the second
   writes all of its own, and the reader takes a payload nobody sent.
   */
  lemma TornStreamMisdelivers(init: State)
    requires Init(init) && init.limit == 0 && init.scripts == [[Encode([1])], [Encode([2])]]
    ensures var acts := [Lock(0), Fail(4), Lock(1), Chunk(5), ReadOne];
            Runs(init, acts) && Exec(init, acts).got == [[0]]
  {
    hide Enabled, Apply, Encode, Runs, Exec;
    TornWriteIsOut(init);
    ResponseIsMisread(Apply(Apply(init, Lock(0)), Fail(4)));
    RunOfFive(init, Lock(0), Fail(4), Lock(1), Chunk(5), ReadOne);
  }

  /** Four bytes are out; the other writer has its frame still to write, and the reader has everything to read. */
  predicate HeaderIsOut(s: State) {
    && s.stream == [0, 0, 0, 1] && s.todo == [[], [Encode([2])]] && s.holder == None
    && s.got == [] && s.cursor == 0 && s.limit == 0
  }

  lemma TornWriteIsOut(init: State)
    requires Init(init) && init.limit == 0 && init.scripts == [[Encode([1])], [Encode([2])]]
    ensures Enabled(init, Lock(0)) && Enabled(Apply(init, Lock(0)), Fail(4))
    ensures HeaderIsOut(Apply(Apply(init, Lock(0)), Fail(4)))
  {
    hide Encode, Parse, Left;
    var s1 := Apply(init, Lock(0));
    FrameIsBegun(init);
    SmallFrames();
    assert |s1.owed| == 5 && s1.owed[..4] == [0, 0, 0, 1] && [] + [0, 0, 0, 1] == [0, 0, 0, 1];
  }

  lemma FrameIsBegun(init: State)
    requires Init(init) && init.limit == 0 && init.scripts == [[Encode([1])], [Encode([2])]]
    ensures Enabled(init, Lock(0))
    ensures var s := Apply(init, Lock(0));
            && s.stream == [] && s.todo == [[], [Encode([2])]] && s.holder == Some(0) && s.owed == Encode([1])
            && s.got == [] && s.cursor == 0 && s.limit == 0 && s.log != [] && s.tried != []
  {
    hide Encode, Parse, Left;
    assert [Encode([1])][1..] == [];
  }

  lemma BroadcastIsOut(init: State)
    requires Init(init) && init.limit == 0 && init.scripts == [[[0, 0, 0, 1]], [Encode([2])]]
    ensures var s := init;
            && Enabled(s, Lock(0)) && Enabled(Apply(s, Lock(0)), Chunk(4))
            && Enabled(Apply(Apply(s, Lock(0)), Chunk(4)), Unlock)
    ensures var s := Apply(Apply(Apply(init, Lock(0)), Chunk(4)), Unlock);
            HeaderIsOut(s) && s.tear == None
  {
    hide Encode, Parse;
    assert [[0, 0, 0, 1]][1..] == [];
    assert [0, 0, 0, 1][..4] == [0, 0, 0, 1] && [] + [0, 0, 0, 1] == [0, 0, 0, 1];
  }

  lemma ResponseIsMisread(s: State)
    requires HeaderIsOut(s)
    ensures Enabled(s, Lock(1)) && Enabled(Apply(s, Lock(1)), Chunk(5))
    ensures var s' := Apply(Apply(s, Lock(1)), Chunk(5));
            Enabled(s', ReadOne) && Apply(s', ReadOne).got == [[0]] && Apply(s', ReadOne).tear == s.tear
  {
    SmallFrames();
    hide Encode, Parse;
    var s' := Apply(Apply(s, Lock(1)), Chunk(5));
    assert Encode([2])[..5] == [0, 0, 0, 1, 2];
    assert s'.stream == [0, 0, 0, 1, 0, 0, 0, 1, 2] == s'.stream[s'.cursor..];
  }

  /** Nor need a write fail: with a broadcast of four bytes before a response, the reader takes another payload. */
  lemma BroadcastBreaksFraming(init: State)
    requires Init(init) && init.limit == 0 && init.scripts == [[[0, 0, 0, 1]], [Encode([2])]]
    ensures var acts := [Lock(0), Chunk(4), Unlock, Lock(1), Chunk(5)] + [ReadOne];
            Runs(init, acts) && Exec(init, acts).tear == None && Exec(init, acts).got == [[0]]
  {
    hide Enabled, Apply, Encode, Runs, Exec;
    BroadcastIsOut(init);
    ResponseIsMisread(Apply(Apply(Apply(init, Lock(0)), Chunk(4)), Unlock));
    RunOfFive(init, Lock(0), Chunk(4), Unlock, Lock(1), Chunk(5));
    RunGrows(init, [Lock(0), Chunk(4), Unlock, Lock(1), Chunk(5)], ReadOne);
  }

  lemma SmallFrames()
    ensures Encode([1]) == [0, 0, 0, 1, 1] && Encode([2]) == [0, 0, 0, 1, 2]
    ensures Parse([0, 0, 0, 1, 0, 0, 0, 1, 2], 0) == (Frame.Frame([0]), [0, 0, 1, 2])
  {
    BytesAreShifts(1);
    assert PutUint32(1) == [0, 0, 0, 1];
    assert Uint32([0, 0, 0, 1]) == 1;
    assert [0, 0, 0, 1, 0, 0, 0, 1, 2] == [0, 0, 0, 1] + [0, 0, 0, 1, 2];
    ParseOfHeader([0, 0, 0, 1], [0, 0, 0, 1, 2], 0);
    assert [0, 0, 0, 1, 2][..1] == [0] && [0, 0, 0, 1, 2][1..] == [0, 0, 1, 2];
  }

  lemma RunOfFive(s: State, a: Action, b: Action, c: Action, d: Action, e: Action)
    requires Enabled(s, a) && Enabled(Apply(s, a), b)
    requires var s2 := Apply(Apply(s, a), b);
             Enabled(s2, c) && Enabled(Apply(s2, c), d) && Enabled(Apply(Apply(s2, c), d), e)
    ensures Runs(s, [a, b, c, d, e])
    ensures Exec(s, [a, b, c, d, e]) == Apply(Apply(Apply(Apply(Apply(s, a), b), c), d), e)
  {
    hide Enabled, Apply;
    assert [a, b, c, d, e][1..] == [b, c, d, e] && [b, c, d, e][1..] == [c, d, e];
    assert [c, d, e][1..] == [d, e] && [d, e][1..] == [e] && [e][1..] == [];
    assert Runs(Apply(Apply(s, a), b), [c, d, e]) by {
      var s2 := Apply(Apply(s, a), b);
      assert Runs(Apply(Apply(s2, c), d), [e]);
      assert Runs(Apply(s2, c), [d, e]);
    }
    assert Exec(Apply(Apply(s, a), b), [c, d, e]) == Apply(Apply(Apply(Apply(Apply(s, a), b), c), d), e) by {
      var s2 := Apply(Apply(s, a), b);
      assert Exec(Apply(Apply(s2, c), d), [e]) == Apply(Apply(Apply(s2, c), d), e);
      assert Exec(Apply(s2, c), [d, e]) == Apply(Apply(Apply(s2, c), d), e);
    }
  }
}
