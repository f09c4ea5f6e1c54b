/**
 An actor: a bounded FIFO mailbox, one goroutine that empties it, and a life cycle of Start and Stop under
 a read-write lock. Any number of callers tell, start and stop; every lock region and channel operation is
 a step.
 */
module ActorMailbox {
  import opened Common

  /** A message; the mailbox also takes nil, which the loop skips. */
  datatype Message = Nil | Message(kind: string, data: seq<byte>)

  /** A goroutine of the run loop. */
  datatype Loop = Waiting | Handling(msg: Message) | Exited

  /** Who holds the lock exclusively, and for what. */
  datatype Writer = Nobody | Starting | Stopping

  /** What the actor's own code gets to see, in order. */
  datatype Event = OnStart(ok: bool) | Receive(msg: Message) | Done(msg: Message) | OnStop

  datatype State = State(
    capacity: nat,
    running: bool,
    cancelled: bool,          // the context of the present incarnation
    mailbox: seq<Message>,
    loops: seq<Loop>,         // every goroutine ever started
    writer: Writer,
    telling: nat,             // callers of Tell holding the read lock, message not yet accepted
    told: nat,                // callers of Tell whose message is in, not yet counted
    enqueued: nat,
    processed: nat,
    failed: nat,
    rejected: nat,
    accepted: seq<Message>,   // every message accepted, in order
    consumed: seq<Message>,   // every message the loop is done with, in order
    history: seq<Event>
  )

  datatype Action =
    | BeginStart | FinishStart(ok: bool) | BeginStop | FinishStop
    | BeginTell | Enqueue(msg: Message) | HandOff(msg: Message, l: nat) | CountTell | TellTimesOut
    | Dequeue(l: nat) | Finish(l: nat, ok: bool) | Exit(l: nat)

  predicate Init(s: State) {
    s == State(s.capacity, false, false, [], [], Nobody, 0, 0, 0, 0, 0, 0, [], [], [])
  }

  predicate LoopIs(s: State, l: nat, loop: Loop) {
    l < |s.loops| && s.loops[l] == loop
  }

  predicate AllExited(s: State) {
    forall l :: 0 <= l < |s.loops| ==> s.loops[l] == Exited
  }

  predicate Enabled(s: State, a: Action) {
    match a
    case BeginStart => s.writer == Nobody && s.telling + s.told == 0
    case FinishStart(_) => s.writer == Starting
    case BeginStop => s.writer == Nobody && s.telling + s.told == 0
    case FinishStop => s.writer == Stopping && AllExited(s)
    case BeginTell => s.writer == Nobody
    case Enqueue(_) => s.telling > 0 && |s.mailbox| < s.capacity
    case HandOff(_, l) => s.telling > 0 && s.mailbox == [] && LoopIs(s, l, Waiting)
    case CountTell => s.told > 0
    case TellTimesOut => s.telling > 0
    case Dequeue(l) => LoopIs(s, l, Waiting) && s.mailbox != []
    case Finish(l, _) => l < |s.loops| && s.loops[l].Handling?
    case Exit(l) => LoopIs(s, l, Waiting) && s.cancelled
  }

  /** The loop takes a message: nil is skipped, anything else goes to the handler. */
  function Takes(s: State, l: nat, msg: Message): State
    requires l < |s.loops|
  {
    if msg == Nil then s.(consumed := s.consumed + [msg])
    else s.(loops := s.loops[l := Handling(msg)], history := s.history + [Receive(msg)])
  }

  function Apply(s: State, a: Action): State
    requires Enabled(s, a)
  {
    match a
    case BeginStart => if s.running then s else s.(writer := Starting)
    case FinishStart(ok) =>
      if ok then
        s.(writer := Nobody, running := true, cancelled := false, loops := s.loops + [Waiting],
           history := s.history + [OnStart(true)])
      else
        s.(writer := Nobody, cancelled := true, history := s.history + [OnStart(false)])
    case BeginStop => if s.running then s.(writer := Stopping, running := false, cancelled := true) else s
    case FinishStop => s.(writer := Nobody, history := s.history + [OnStop])
    case BeginTell => if s.running then s.(telling := s.telling + 1) else s
    case Enqueue(msg) =>
      s.(telling := s.telling - 1, told := s.told + 1, mailbox := s.mailbox + [msg], accepted := s.accepted + [msg])
    case HandOff(msg, l) =>
      Takes(s.(telling := s.telling - 1, told := s.told + 1, accepted := s.accepted + [msg]), l, msg)
    case CountTell => s.(told := s.told - 1, enqueued := s.enqueued + 1)
    case TellTimesOut => s.(telling := s.telling - 1, rejected := s.rejected + 1)
    case Dequeue(l) => Takes(s.(mailbox := s.mailbox[1..]), l, s.mailbox[0])
    case Finish(l, ok) =>
      s.(loops := s.loops[l := Waiting], consumed := s.consumed + [s.loops[l].msg],
         processed := s.processed + 1, failed := if ok then s.failed else s.failed + 1,
         history := s.history + [Done(s.loops[l].msg)])
    case Exit(l) => s.(loops := s.loops[l := Exited])
  }

  predicate Runs(s: State, acts: seq<Action>)
    decreases |acts|
  {
    acts == [] || (Enabled(s, acts[0]) && Runs(Apply(s, acts[0]), acts[1..]))
  }

  function Exec(s: State, acts: seq<Action>): State
    requires Runs(s, acts)
    decreases |acts|
  {
    if acts == [] then s else Exec(Apply(s, acts[0]), acts[1..])
  }

  // ---------------------------------------------------------------- the life cycle as a language

  /** Where a well-behaved history stands. */
  datatype Phase = Down | Up | Busy(msg: Message) | Broken

  function NextPhase(phase: Phase, e: Event): Phase {
    match (phase, e)
    case (Down, OnStart(ok)) => if ok then Up else Down
    case (Up, Receive(msg)) => Busy(msg)
    case (Busy(msg), Done(done)) => if msg == done then Up else Broken
    case (Up, OnStop) => Down
    case _ => Broken
  }

  /** Reads a history: OnStart, then handlers one at a time, then OnStop; again and again. */
  function Scan(history: seq<Event>): Phase {
    if history == [] then Down
    else NextPhase(Scan(history[..|history| - 1]), history[|history| - 1])
  }

  /** The messages handed to the handler. */
  function Received(history: seq<Event>): seq<Message> {
    if history == [] then []
    else
      var last := history[|history| - 1];
      Received(history[..|history| - 1]) + if last.Receive? then [last.msg] else []
  }

  /** The messages other than nil. */
  function Proper(msgs: seq<Message>): seq<Message> {
    if msgs == [] then []
    else Proper(msgs[..|msgs| - 1]) + if msgs[|msgs| - 1] == Nil then [] else [msgs[|msgs| - 1]]
  }

  // ---------------------------------------------------------------- what every step keeps

  function LastLoop(s: State): Loop {
    if s.loops == [] then Exited else s.loops[|s.loops| - 1]
  }

  /** The message in the handler, if there is one. */
  function InHandler(s: State): seq<Message> {
    if LastLoop(s).Handling? then [LastLoop(s).msg] else []
  }

  function PhaseOf(s: State): Phase {
    match LastLoop(s)
    case Handling(msg) => Busy(msg)
    case Waiting => Up
    case Exited => if s.writer == Stopping then Up else Down
  }

  /** Only the last goroutine can be alive, and it is while the actor runs or is being stopped. */
  predicate OneLoop(s: State) {
    && (forall l :: 0 <= l < |s.loops| - 1 ==> s.loops[l] == Exited)
    && (s.running ==> LastLoop(s) != Exited && !s.cancelled && s.writer == Nobody)
    && (LastLoop(s) != Exited ==> s.running || s.writer == Stopping)
    && (LastLoop(s).Handling? ==> LastLoop(s).msg != Nil)
    && (s.writer == Stopping ==> s.cancelled)
  }

  predicate Locking(s: State) {
    && (s.writer != Nobody ==> s.telling + s.told == 0)
    && (s.telling + s.told > 0 ==> s.running)
  }

  /** What the loop has taken so far: done with, then in the handler. */
  function Taken(s: State): seq<Message> {
    s.consumed + InHandler(s)
  }

  predicate Conserved(s: State) {
    s.accepted == Taken(s) + s.mailbox && |s.mailbox| <= s.capacity
  }

  predicate Counted(s: State) {
    && s.enqueued + s.told == |s.accepted|
    && s.processed == |Proper(s.consumed)|
    && s.failed <= s.processed
  }

  predicate Orderly(s: State) {
    Scan(s.history) == PhaseOf(s) && Received(s.history) == Proper(Taken(s))
  }

  predicate Inv(s: State) {
    OneLoop(s) && Locking(s) && Conserved(s) && Counted(s) && Orderly(s)
  }

  lemma HistoryGrows(history: seq<Event>, e: Event)
    ensures Scan(history + [e]) == NextPhase(Scan(history), e)
    ensures Received(history + [e]) == Received(history) + if e.Receive? then [e.msg] else []
  {
    assert (history + [e])[..|history|] == history;
  }

  lemma ProperGrows(msgs: seq<Message>, msg: Message)
    ensures Proper(msgs + [msg]) == Proper(msgs) + if msg == Nil then [] else [msg]
  {
    assert (msgs + [msg])[..|msgs|] == msgs;
  }

  /** The message an action takes out of the mailbox, or past it. */
  function TakenBy(s: State, a: Action): seq<Message>
    requires Enabled(s, a)
  {
    match a
    case HandOff(msg, _) => [msg]
    case Dequeue(_) => [s.mailbox[0]]
    case _ => []
  }

  lemma StepKeepsOneLoop(s: State, a: Action)
    requires OneLoop(s) && Locking(s) && Enabled(s, a)
    ensures OneLoop(Apply(s, a)) && Locking(Apply(s, a))
  {
  }

  lemma StepTakes(s: State, a: Action)
    requires OneLoop(s) && Locking(s) && Enabled(s, a)
    ensures Taken(Apply(s, a)) == Taken(s) + TakenBy(s, a)
  {
    assert a.HandOff? || a.Dequeue? || a.Finish? || a.Exit? ==> a.l == |s.loops| - 1;
  }

  lemma StepKeepsConserved(s: State, a: Action)
    requires OneLoop(s) && Locking(s) && Conserved(s) && Enabled(s, a)
    ensures Conserved(Apply(s, a))
  {
    hide Taken, TakenBy, OneLoop, Locking, Enabled, Apply;
    StepTakes(s, a);
    var accepted := StepAccepts(s, a);
    assert Taken(s) + (s.mailbox + accepted) == Taken(s) + TakenBy(s, a) + Apply(s, a).mailbox;
  }

  /** What an action adds to the log goes into the mailbox, behind what it takes from there. */
  lemma StepAccepts(s: State, a: Action) returns (accepted: seq<Message>)
    requires |s.mailbox| <= s.capacity && Enabled(s, a)
    ensures var s' := Apply(s, a);
            && s'.accepted == s.accepted + accepted && s.mailbox + accepted == TakenBy(s, a) + s'.mailbox
            && |s'.mailbox| <= s'.capacity && s'.capacity == s.capacity
  {
    hide AllExited;
    accepted := match a
      case Enqueue(msg) => [msg]
      case HandOff(msg, _) => [msg]
      case _ => [];
    if a.Dequeue? {
      assert s.mailbox == [s.mailbox[0]] + s.mailbox[1..];
    }
  }

  /** No handler is ever given nil. */
  predicate NilIsSkipped(s: State) {
    forall l :: 0 <= l < |s.loops| && s.loops[l].Handling? ==> s.loops[l].msg != Nil
  }

  lemma StepKeepsCounted(s: State, a: Action)
    requires Counted(s) && NilIsSkipped(s) && Enabled(s, a)
    ensures Counted(Apply(s, a))
  {
    hide Proper, AllExited, OneLoop;
    if a.Finish? {
      ProperGrows(s.consumed, s.loops[a.l].msg);
    } else if TakenBy(s, a) != [] {
      ProperGrows(s.consumed, TakenBy(s, a)[0]);
    }
  }

  lemma HandlersGetNoNil(s: State)
    requires OneLoop(s)
    ensures NilIsSkipped(s)
  {
  }

  lemma StepKeepsOrderly(s: State, a: Action)
    requires OneLoop(s) && Locking(s) && Orderly(s) && Enabled(s, a)
    ensures Orderly(Apply(s, a))
  {
    StepTakes(s, a);
    StepKeepsPhase(s, a);
    StepReceives(s, a);
    hide Proper, Received, Scan, AllExited, OneLoop, Locking, Apply;
    if TakenBy(s, a) != [] {
      ProperGrows(Taken(s), TakenBy(s, a)[0]);
      assert TakenBy(s, a) == [TakenBy(s, a)[0]];
    } else {
      assert Taken(s) + [] == Taken(s);
    }
  }

  lemma StepReceives(s: State, a: Action)
    requires OneLoop(s) && Enabled(s, a)
    ensures Received(Apply(s, a).history)
            == Received(s.history) + if TakenBy(s, a) == [] || TakenBy(s, a)[0] == Nil then [] else TakenBy(s, a)
  {
    StepAddsEvent(s, a);
    hide Apply, Received, Scan, OneLoop;
    if EventOf(s, a) != [] {
      HistoryGrows(s.history, EventOf(s, a)[0]);
      assert EventOf(s, a) == [EventOf(s, a)[0]];
    } else {
      assert s.history + [] == s.history;
    }
  }

  /** The event an action adds to the history. */
  function EventOf(s: State, a: Action): seq<Event>
    requires Enabled(s, a)
  {
    match a
    case FinishStart(ok) => [OnStart(ok)]
    case FinishStop => [OnStop]
    case HandOff(msg, _) => if msg == Nil then [] else [Receive(msg)]
    case Dequeue(_) => if s.mailbox[0] == Nil then [] else [Receive(s.mailbox[0])]
    case Finish(l, _) => [Done(s.loops[l].msg)]
    case _ => []
  }

  lemma StepAddsEvent(s: State, a: Action)
    requires Enabled(s, a)
    ensures Apply(s, a).history == s.history + EventOf(s, a)
  {
  }

  lemma PhaseMoves(s: State, a: Action)
    requires OneLoop(s) && Locking(s) && Enabled(s, a)
    ensures PhaseOf(Apply(s, a)) ==
              if EventOf(s, a) == [] then PhaseOf(s) else NextPhase(PhaseOf(s), EventOf(s, a)[0])
  {
  }

  lemma StepKeepsPhase(s: State, a: Action)
    requires OneLoop(s) && Locking(s) && Scan(s.history) == PhaseOf(s) && Enabled(s, a)
    ensures Scan(Apply(s, a).history) == PhaseOf(Apply(s, a))
  {
    StepAddsEvent(s, a);
    PhaseMoves(s, a);
    hide Enabled, Apply, Scan, PhaseOf, NextPhase, OneLoop, Locking;
    if EventOf(s, a) != [] {
      HistoryGrows(s.history, EventOf(s, a)[0]);
      assert EventOf(s, a) == [EventOf(s, a)[0]];
    } else {
      assert s.history + [] == s.history;
    }
  }

  lemma {:induction false} RunKeepsInv(s: State, acts: seq<Action>)
    requires Inv(s) && Runs(s, acts)
    ensures Inv(Exec(s, acts))
    decreases |acts|
  {
    hide Enabled, Apply, OneLoop, Locking, Conserved, Counted, Orderly;
    if acts != [] {
      StepKeepsOneLoop(s, acts[0]);
      StepKeepsConserved(s, acts[0]);
      HandlersGetNoNil(s);
      StepKeepsCounted(s, acts[0]);
      StepKeepsOrderly(s, acts[0]);
      RunKeepsInv(Apply(s, acts[0]), acts[1..]);
    }
  }

  // ---------------------------------------------------------------- main results

  /**
   Refinement to one sequential log. At every step, across any number of starts and stops, the accepted
   messages are exactly those the loop is done with (skipped nils included), then the one in the handler,
   then the mailbox; and the handler was given the proper ones among the first two, in that order.
   */
  lemma LogIsConsumedHandledAndMailbox(init: State, acts: seq<Action>)
    requires Init(init) && Runs(init, acts)
    ensures var s := Exec(init, acts);
            && s.accepted == s.consumed + InHandler(s) + s.mailbox
            && |s.mailbox| <= init.capacity
            && Received(s.history) == Proper(s.consumed + InHandler(s))
            && Received(s.history) <= Proper(s.accepted)
  {
    RunKeepsInv(init, acts);
    RunKeepsCapacity(init, acts);
    var s := Exec(init, acts);
    hide Runs, Exec;
    ProperOfPrefix(Taken(s), s.mailbox);
  }

  lemma {:induction false} RunKeepsCapacity(s: State, acts: seq<Action>)
    requires Runs(s, acts)
    ensures Exec(s, acts).capacity == s.capacity
    decreases |acts|
  {
    if acts != [] {
      RunKeepsCapacity(Apply(s, acts[0]), acts[1..]);
    }
  }

  lemma {:induction false} ProperOfPrefix(front: seq<Message>, back: seq<Message>)
    ensures Proper(front) <= Proper(front + back)
    decreases |back|
  {
    if back == [] {
      assert front + back == front;
    } else {
      ProperOfPrefix(front, back[..|back| - 1]);
      assert front + back == (front + back[..|back| - 1]) + [back[|back| - 1]];
      ProperGrows(front + back[..|back| - 1], back[|back| - 1]);
    }
  }

  /** At most one goroutine is alive, so at most one handler runs, and messages get in only while it runs. */
  lemma OneHandlerAtATime(init: State, acts: seq<Action>)
    requires Init(init) && Runs(init, acts)
    ensures var s := Exec(init, acts);
            && (forall k, l :: 0 <= k < |s.loops| && 0 <= l < |s.loops| && s.loops[k] != Exited && s.loops[l] != Exited
                  ==> k == l)
            && (s.telling + s.told > 0 ==> s.running && s.writer == Nobody)
  {
    hide Runs, Exec, Conserved, Counted, Orderly;
    InitIsInv(init);
    RunKeepsInv(init, acts);
  }

  lemma InitIsInv(s: State)
    requires Init(s)
    ensures Inv(s)
  {
  }

  /** The counters: no message is lost or counted twice, once the callers of Tell have counted theirs. */
  lemma CountersBalance(init: State, acts: seq<Action>)
    requires Init(init) && Runs(init, acts)
    ensures var s := Exec(init, acts);
            && s.enqueued + s.told == |s.consumed| + |InHandler(s)| + |s.mailbox|
            && s.processed == |Proper(s.consumed)| && s.failed <= s.processed <= s.enqueued + s.told
  {
    RunKeepsInv(init, acts);
    var s := Exec(init, acts);
    hide Runs, Exec;
    ProperIsShorter(s.consumed);
  }

  /** What the four counters count. */
  datatype Kind = Accepted | Processed | Failed | Rejected

  predicate IsOf(kind: Kind, a: Action) {
    match kind
    case Accepted => a == CountTell
    case Processed => a.Finish?
    case Failed => a.Finish? && !a.ok
    case Rejected => a == TellTimesOut
  }

  function Times(kind: Kind, acts: seq<Action>): nat {
    if acts == [] then 0 else Times(kind, acts[1..]) + if IsOf(kind, acts[0]) then 1 else 0
  }

  function Counter(kind: Kind, s: State): nat {
    match kind
    case Accepted => s.enqueued
    case Processed => s.processed
    case Failed => s.failed
    case Rejected => s.rejected
  }

  /**
   Over any run each counter grows by the number of steps it counts: messages accepted, messages handled,
   messages whose handler ended in an error, and messages rejected.
   */
  lemma {:induction false} CountersCount(s: State, acts: seq<Action>, kind: Kind)
    requires Runs(s, acts)
    ensures Counter(kind, Exec(s, acts)) == Counter(kind, s) + Times(kind, acts)
    decreases |acts|
  {
    if acts != [] {
      StepCounts(s, acts[0], kind);
      hide Enabled, Apply, IsOf, Counter;
      CountersCount(Apply(s, acts[0]), acts[1..], kind);
    }
  }

  lemma StepCounts(s: State, a: Action, kind: Kind)
    requires Enabled(s, a)
    ensures Counter(kind, Apply(s, a)) == Counter(kind, s) + if IsOf(kind, a) then 1 else 0
  {
  }

  lemma ProperIsShorter(msgs: seq<Message>)
    ensures |Proper(msgs)| <= |msgs|
  {
  }

  /** Between i and j nothing but handlers begins or ends. */
  predicate OnlyHandlers(history: seq<Event>, i: nat, j: nat)
    requires j <= |history|
  {
    forall k :: i < k < j ==> history[k].Receive? || history[k].Done?
  }

  /** In a history that is not broken, an incarnation that is up began with OnStart and has seen only handlers since. */
  lemma {:induction false} UpSinceStart(history: seq<Event>) returns (i: nat)
    requires Scan(history).Up? || Scan(history).Busy?
    ensures i < |history| && history[i] == OnStart(true) && OnlyHandlers(history, i, |history|)
    ensures Scan(history).Busy? ==> history[|history| - 1].Receive?
  {
    var front, last := history[..|history| - 1], history[|history| - 1];
    if last == OnStart(true) {
      i := |front|;
    } else {
      i := UpSinceStart(front);
    }
  }

  lemma {:induction false} PrefixesAreUnbroken(history: seq<Event>, k: nat)
    requires Scan(history) != Broken && k <= |history|
    ensures Scan(history[..k]) != Broken
    decreases |history|
  {
    if k == |history| {
      assert history[..k] == history;
    } else {
      PrefixesAreUnbroken(history[..|history| - 1], k);
      assert history[..|history| - 1][..k] == history[..k];
    }
  }

  /**
   Each incarnation orders OnStart before all its messages before OnStop, with handlers one at a time: every
   message is received, and every OnStop happens, after a successful OnStart with only handlers in between;
   a handler begins only when none is running and ends right after it began, as far as the actor can see.
   */
  lemma LifeCycleIsOrdered(init: State, acts: seq<Action>, k: nat)
    requires Init(init) && Runs(init, acts) && k < |Exec(init, acts).history|
    ensures Ordered(Exec(init, acts).history, k)
  {
    RunKeepsInv(init, acts);
    hide Runs, Exec;
    UnbrokenIsOrdered(Exec(init, acts).history, k);
  }

  predicate Ordered(h: seq<Event>, k: nat)
    requires k < |h|
  {
    && (h[k].Receive? || h[k].Done? || h[k].OnStop? ==> HasStarted(h, k))
    && (h[k].Done? ==> k > 0 && h[k - 1] == Receive(h[k].msg))
    && (h[k].Receive? || h[k].OnStop? ==> k > 0 && !h[k - 1].Receive?)
    && (h[k].OnStart? ==> k == 0 || h[k - 1].OnStop? || h[k - 1] == OnStart(false))
  }

  /** A successful OnStart happened before k, and only handlers since. */
  predicate HasStarted(h: seq<Event>, k: nat)
    requires k <= |h|
  {
    exists i :: 0 <= i < k && h[i] == OnStart(true) && OnlyHandlers(h, i, k)
  }

  lemma UnbrokenIsOrdered(h: seq<Event>, k: nat)
    requires Scan(h) != Broken && k < |h|
    ensures Ordered(h, k)
  {
    var before := h[..k];
    PrefixesAreUnbroken(h, k + 1);
    PrefixesAreUnbroken(h, k);
    assert h[..k + 1] == before + [h[k]];
    HistoryGrows(before, h[k]);
    LastEvent(before);
    hide Scan;
    if h[k].Receive? || h[k].Done? || h[k].OnStop? {
      var i := UpSinceStart(before);
      assert OnlyHandlers(h, i, k);
    }
  }

  /** The last event of an unbroken history, by where it stands. */
  lemma LastEvent(history: seq<Event>)
    requires Scan(history) != Broken
    ensures Scan(history).Busy? ==> history != [] && history[|history| - 1] == Receive(Scan(history).msg)
    ensures Scan(history) == Up ==> history != [] && !history[|history| - 1].Receive?
    ensures Scan(history) == Down ==>
              history == [] || history[|history| - 1].OnStop? || history[|history| - 1] == OnStart(false)
  {
  }

  // ---------------------------------------------------------------- the actor's own fields

  /** How many of the messages the handler ends in an error for; it is not given nil. */
  function Errors(msgs: seq<Message>, handler: Message -> bool): nat {
    if msgs == [] then 0
    else
      var last := msgs[|msgs| - 1];
      Errors(msgs[..|msgs| - 1], handler) + if last != Nil && !handler(last) then 1 else 0
  }

  /** The handler, begun and ended for each message but nil. */
  function Handlings(msgs: seq<Message>): seq<Event> {
    if msgs == [] then []
    else
      var last := msgs[|msgs| - 1];
      Handlings(msgs[..|msgs| - 1]) + if last == Nil then [] else [Receive(last), Done(last)]
  }

  lemma NoneHandled(handler: Message -> bool)
    ensures Errors([], handler) == 0 && Handlings([]) == [] && Proper([]) == []
  {
  }

  lemma OneHandled(msg: Message, handler: Message -> bool)
    ensures Errors([msg], handler) == if msg != Nil && !handler(msg) then 1 else 0
    ensures Handlings([msg]) == if msg == Nil then [] else [Receive(msg), Done(msg)]
    ensures |Proper([msg])| == if msg == Nil then 0 else 1
  {
    OneMoreHandled([], msg, handler);
    assert [] + [msg] == [msg];
  }

  lemma OneMoreHandled(msgs: seq<Message>, msg: Message, handler: Message -> bool)
    ensures Errors(msgs + [msg], handler) == Errors(msgs, handler) + if msg != Nil && !handler(msg) then 1 else 0
    ensures Handlings(msgs + [msg]) == Handlings(msgs) + if msg == Nil then [] else [Receive(msg), Done(msg)]
    ensures |Proper(msgs + [msg])| == |Proper(msgs)| + if msg == Nil then 0 else 1
  {
    assert (msgs + [msg])[..|msgs|] == msgs;
  }

  lemma {:induction false} RunGrows(s: State, acts: seq<Action>, a: Action)
    requires Runs(s, acts) && Enabled(Exec(s, acts), a)
    ensures Runs(s, acts + [a]) && Exec(s, acts + [a]) == Apply(Exec(s, acts), a)
    decreases |acts|
  {
    hide Enabled, Apply;
    if acts == [] {
      assert [] + [a] == [a] && [a][1..] == [];
    } else {
      RunGrows(Apply(s, acts[0]), acts[1..], a);
      assert (acts + [a])[1..] == acts[1..] + [a];
    }
  }

  /**
   The actor as one goroutine at a time sees it. `system` is the step system it is part of, `trace` the steps
   taken so far; every method takes the steps its code stands for.
   */
  class BaseActor {
    const capacity: nat
    var running: bool
    var mailbox: seq<Message>
    var messagesEnqueued: nat
    var messagesProcessed: nat
    var messagesFailed: nat
    var messagesRejected: nat
    ghost const init: State
    ghost var trace: seq<Action>

    ghost function System(): State
      reads this
      requires Runs(init, trace)
    {
      Exec(init, trace)
    }

    ghost predicate Valid()
      reads this
    {
      && Init(init) && init.capacity == capacity && Runs(init, trace)
      && var s := System();
         && s.capacity == capacity && Inv(s)
         && s.running == running && s.mailbox == mailbox && s.enqueued == messagesEnqueued
         && s.processed == messagesProcessed && s.failed == messagesFailed && s.rejected == messagesRejected
    }

    /** Nobody is inside a method: the lock is free, and the loop is not in a handler. */
    ghost predicate Quiet()
      reads this
      requires Runs(init, trace)
    {
      System().writer == Nobody && System().telling + System().told == 0 && !LastLoop(System()).Handling?
    }

    constructor (capacity: nat)
      ensures Valid() && Quiet() && this.capacity == capacity && !running && mailbox == [] && System().accepted == []
    {
      this.capacity := capacity;
      running, mailbox := false, [];
      messagesEnqueued, messagesProcessed, messagesFailed, messagesRejected := 0, 0, 0, 0;
      init := State(capacity, false, false, [], [], Nobody, 0, 0, 0, 0, 0, 0, [], [], []);
      trace := [];
    }

    ghost method Take(a: Action)
      requires Init(init) && Runs(init, trace) && Enabled(System(), a)
      modifies this`trace
      ensures Runs(init, trace) && System() == Apply(old(System()), a) && Inv(System())
      ensures trace == old(trace) + [a]
    {
      RunGrows(init, trace, a);
      RunKeepsInv(init, trace + [a]);
      trace := trace + [a];
    }

    method Start(onStart: bool) returns (ok: bool)
      requires Valid() && Quiet()
      modifies this
      ensures Valid() && Quiet() && ok == (!old(running) && onStart)
      ensures running == (old(running) || onStart) && mailbox == old(mailbox)
      ensures System().history == old(System()).history + if old(running) then [] else [OnStart(onStart)]
      ensures Counters() == old(Counters())
      ensures System().accepted == old(System()).accepted
    {
      hide Inv, Runs, Exec;
      Take(BeginStart);
      if running {
        return false;
      }
      Take(FinishStart(onStart));
      running := onStart;
      return onStart;
    }

    function Counters(): (nat, nat, nat, nat)
      reads this
    {
      (messagesEnqueued, messagesProcessed, messagesFailed, messagesRejected)
    }

    /** Since then the loop has passed just these messages: counted, handled in order, and their errors counted. */
    ghost predicate Passed(was: State, processed: nat, failed: nat, msgs: seq<Message>, handler: Message -> bool)
      reads this
      requires Runs(init, trace)
    {
      && System().history == was.history + Handlings(msgs)
      && messagesProcessed == processed + |Proper(msgs)|
      && messagesFailed == failed + Errors(msgs, handler)
    }

    /** One caller of Tell holds the read lock with its message still in hand; nothing else goes on. */
    ghost predicate Telling()
      reads this
      requires Runs(init, trace)
    {
      System().writer == Nobody && System().telling == 1 && System().told == 0 && !LastLoop(System()).Handling?
    }

    /**
     Tell: an error if the actor does not run, or if its mailbox is full and stays so for the time Tell waits;
     else the message is accepted, last in line. `inTime` says whether the loop comes round while Tell waits on
     a full mailbox: it then takes the first message out, or, with a mailbox of capacity 0, this one directly.
     */
    method Tell(msg: Message, inTime: bool, handler: Message -> bool) returns (ok: bool)
      requires Valid() && Quiet()
      modifies this
      ensures Valid() && Quiet() && running == old(running)
      ensures ok == (running && (|old(mailbox)| < capacity || inTime))
      ensures mailbox == if !ok then old(mailbox)
                         else if |old(mailbox)| < capacity then old(mailbox) + [msg]
                         else if old(mailbox) == [] then []
                         else old(mailbox)[1..] + [msg]
      ensures System().accepted == (if ok then old(System()).accepted + [msg] else old(System()).accepted)
      ensures messagesRejected == old(messagesRejected) + if running && !ok then 1 else 0
      ensures messagesEnqueued == old(messagesEnqueued) + if ok then 1 else 0
      ensures Passed(old(System()), old(messagesProcessed), old(messagesFailed),
                     if !ok || |old(mailbox)| < capacity then []
                     else if old(mailbox) == [] then [msg]
                     else [old(mailbox)[0]], handler)
    {
      MailboxFits(System());
      NoneHandled(handler);
      hide Inv, Runs, Exec, Init, Errors, Handlings, Proper, AllExited;
      Take(BeginTell);
      if !running {
        return false;
      }
      if |mailbox| < capacity {
        Accept(msg);
        return true;
      }
      if inTime {
        if mailbox == [] {
          HandOver(msg, handler);
        } else {
          MakeRoom(msg, handler);
        }
        return true;
      }
      Take(TellTimesOut);
      messagesRejected := messagesRejected + 1;
      return false;
    }

    /** A message gets in, whatever the loop is doing. */
    method Accept(msg: Message)
      requires Valid() && System().writer == Nobody && System().telling == 1 && System().told == 0 && |mailbox| < capacity
      modifies this`trace, this`mailbox, this`messagesEnqueued
      ensures Valid() && mailbox == old(mailbox) + [msg] && messagesEnqueued == old(messagesEnqueued) + 1
      ensures System().writer == Nobody && System().telling + System().told == 0
      ensures System().loops == old(System()).loops && System().history == old(System()).history
      ensures System().accepted == old(System()).accepted + [msg]
    {
      hide Inv, Runs, Exec;
      Take(Enqueue(msg));
      mailbox := mailbox + [msg];
      CountTold();
    }

    /** The loop takes the first message out of the full mailbox, and the waiting one gets in. */
    method MakeRoom(msg: Message, handler: Message -> bool)
      requires Valid() && Telling() && running && mailbox != [] && |mailbox| <= capacity
      modifies this
      ensures Valid() && Quiet() && running && mailbox == old(mailbox)[1..] + [msg]
      ensures messagesEnqueued == old(messagesEnqueued) + 1 && messagesRejected == old(messagesRejected)
      ensures System().accepted == old(System()).accepted + [msg]
      ensures Passed(old(System()), old(messagesProcessed), old(messagesFailed), [old(mailbox)[0]], handler)
    {
      hide Inv, Runs, Exec, Enabled, Apply, Init, Errors, Handlings, Proper;
      OneHandled(mailbox[0], handler);
      var first := Receive();
      Accept(msg);
      if first != Nil {
        Handle(handler(first));
      }
    }

    /** With no room for any message at all, the loop takes the waiting one directly. */
    method HandOver(msg: Message, handler: Message -> bool)
      requires Valid() && Telling() && running && mailbox == []
      modifies this
      ensures Valid() && Quiet() && running && mailbox == []
      ensures messagesEnqueued == old(messagesEnqueued) + 1 && messagesRejected == old(messagesRejected)
      ensures System().accepted == old(System()).accepted + [msg]
      ensures Passed(old(System()), old(messagesProcessed), old(messagesFailed), [msg], handler)
    {
      hide Inv, Runs, Exec, Enabled, Apply, Init, Errors, Handlings, Proper;
      OneHandled(msg, handler);
      ReceiveDirectly(msg);
      if msg != Nil {
        Handle(handler(msg));
      }
    }

    method ReceiveDirectly(msg: Message)
      requires Valid() && Telling() && running && mailbox == []
      modifies this`trace, this`messagesEnqueued
      ensures Valid() && messagesEnqueued == old(messagesEnqueued) + 1
      ensures System().accepted == old(System()).accepted + [msg]
      ensures System().writer == Nobody && System().telling + System().told == 0
      ensures LastLoop(System()) == if msg == Nil then Waiting else Handling(msg)
      ensures System().history == old(System()).history + if msg == Nil then [] else [Event.Receive(msg)]
    {
      hide Inv, Runs, Exec, Enabled, Apply, Init, Errors, Handlings, Proper;
      ghost var l := LiveLoop(System());
      HandOffDoes(System(), msg, l);
      Take(HandOff(msg, l));
      CountTold();
    }

    /** The caller of Tell whose message is in counts it. */
    method CountTold()
      requires Valid() && System().told == 1
      modifies this`trace, this`messagesEnqueued
      ensures Valid() && messagesEnqueued == old(messagesEnqueued) + 1
      ensures System().told == 0 && System().telling == old(System()).telling && System().writer == old(System()).writer
      ensures System().accepted == old(System()).accepted && System().history == old(System()).history
      ensures System().loops == old(System()).loops
    {
      hide Inv, Runs, Exec, Init;
      Take(CountTell);
      messagesEnqueued := messagesEnqueued + 1;
    }

    /** The run loop until the mailbox is empty: nil is skipped, a handler's error is counted. */
    method Drain(handler: Message -> bool)
      requires Valid() && Quiet() && running
      modifies this
      ensures Valid() && Quiet() && running && mailbox == []
      ensures System().accepted == old(System()).accepted == System().consumed
      ensures Received(System().history) == Proper(System().accepted)
      ensures Passed(old(System()), old(messagesProcessed), old(messagesFailed), old(mailbox), handler)
      ensures messagesProcessed == |Proper(System().accepted)|
      ensures messagesEnqueued == old(messagesEnqueued) && messagesRejected == old(messagesRejected)
    {
      ghost var msgs, i := mailbox, 0;
      NoneHandled(handler);
      hide Runs, Exec, Enabled, Apply, Errors, Handlings, Proper;
      while mailbox != []
        invariant Valid() && Quiet() && running && System().accepted == old(System()).accepted
        invariant i <= |msgs| && mailbox == msgs[i..]
        invariant Passed(old(System()), old(messagesProcessed), old(messagesFailed), msgs[..i], handler)
        invariant messagesEnqueued == old(messagesEnqueued) && messagesRejected == old(messagesRejected)
        decreases |mailbox|
      {
        OneMoreHandled(msgs[..i], msgs[i], handler);
        OneHandled(msgs[i], handler);
        assert msgs[..i + 1] == msgs[..i] + [msgs[i]];
        Deliver(handler);
        i := i + 1;
      }
      assert msgs[..i] == msgs;
      assert InHandler(System()) == [] && Taken(System()) == System().consumed;
      assert System().accepted == Taken(System()) + [];
    }

    /** One pass of the run loop. */
    method Deliver(handler: Message -> bool)
      requires Valid() && Quiet() && running && mailbox != []
      modifies this
      ensures Valid() && Quiet() && running && mailbox == old(mailbox)[1..]
      ensures System().accepted == old(System()).accepted
      ensures Passed(old(System()), old(messagesProcessed), old(messagesFailed), [old(mailbox)[0]], handler)
      ensures messagesEnqueued == old(messagesEnqueued) && messagesRejected == old(messagesRejected)
    {
      hide Inv, Runs, Exec, Enabled, Apply, Init, Errors, Handlings, Proper;
      OneHandled(mailbox[0], handler);
      var msg := Receive();
      if msg != Nil {
        Handle(handler(msg));
      }
    }

    /** The loop takes the first message, whether or not a caller of Tell is waiting. */
    method Receive() returns (msg: Message)
      requires Valid() && System().writer == Nobody && !LastLoop(System()).Handling? && running && mailbox != []
      modifies this`trace, this`mailbox
      ensures Valid() && mailbox == old(mailbox)[1..] && msg == old(mailbox)[0]
      ensures System().accepted == old(System()).accepted
      ensures System().writer == Nobody
      ensures System().telling == old(System()).telling && System().told == old(System()).told
      ensures LastLoop(System()) == if msg == Nil then Waiting else Handling(msg)
      ensures System().history == old(System()).history + if msg == Nil then [] else [Event.Receive(msg)]
    {
      hide Inv, Runs, Exec, Enabled, Apply, Init, Errors, Handlings, Proper;
      ghost var l := LiveLoop(System());
      DequeueDoes(System(), l);
      Take(Dequeue(l));
      msg := mailbox[0];
      mailbox := mailbox[1..];
    }

    method Handle(ok: bool)
      requires Valid() && running && LastLoop(System()).Handling?
      requires System().writer == Nobody && System().telling + System().told == 0
      modifies this
      ensures Valid() && Quiet() && running && mailbox == old(mailbox)
      ensures messagesEnqueued == old(messagesEnqueued) && messagesRejected == old(messagesRejected)
      ensures messagesProcessed == old(messagesProcessed) + 1
      ensures messagesFailed == old(messagesFailed) + if ok then 0 else 1
      ensures System().accepted == old(System()).accepted
      ensures System().history == old(System()).history + [Done(old(LastLoop(System())).msg)]
    {
      ghost var l := |System().loops| - 1;
      hide Inv, Runs, Exec, Enabled, Apply, Init, Errors, Handlings, Proper;
      Take(Finish(l, ok));
      if !ok {
        messagesFailed := messagesFailed + 1;
      }
      messagesProcessed := messagesProcessed + 1;
    }

    /** Stop: the loop ends, OnStop runs, and what is left in the mailbox stays for the next Start. */
    method Stop()
      requires Valid() && Quiet()
      modifies this
      ensures Valid() && Quiet() && !running && mailbox == old(mailbox)
      ensures System().history == old(System()).history + if old(running) then [OnStop] else []
      ensures Counters() == old(Counters())
      ensures System().accepted == old(System()).accepted
    {
      hide Inv, Runs, Exec;
      if !running {
        Take(BeginStop);
        return;
      }
      ghost var l := LiveLoop(System());
      Take(BeginStop);
      running := false;
      Take(Exit(l));
      OnlyLastAlive(System());
      Take(FinishStop);
    }
  }

  /** The fields one pass of the loop leaves alone, and what it does to the goroutine. */
  lemma DequeueDoes(s: State, l: nat)
    requires LoopIs(s, l, Waiting) && l == |s.loops| - 1 && s.mailbox != []
    ensures Enabled(s, Dequeue(l))
    ensures var s1 := Apply(s, Dequeue(l));
            && s1.(consumed := s.consumed, loops := s.loops, history := s.history) == s.(mailbox := s.mailbox[1..])
            && |s1.loops| == |s.loops|
            && s1.history == s.history + (if s.mailbox[0] == Nil then [] else [Receive(s.mailbox[0])])
            && LastLoop(s1) == if s.mailbox[0] == Nil then Waiting else Handling(s.mailbox[0])
  {
  }

  lemma HandOffDoes(s: State, msg: Message, l: nat)
    requires s.telling == 1 && s.told == 0 && s.mailbox == [] && LoopIs(s, l, Waiting) && l == |s.loops| - 1
    ensures Enabled(s, HandOff(msg, l))
    ensures var s1 := Apply(s, HandOff(msg, l));
            && s1.(consumed := s.consumed, loops := s.loops, history := s.history)
               == s.(telling := 0, told := 1, accepted := s.accepted + [msg])
            && s1.history == s.history + (if msg == Nil then [] else [Receive(msg)])
            && LastLoop(s1) == if msg == Nil then Waiting else Handling(msg)
  {
  }

  lemma LiveLoop(s: State) returns (l: nat)
    requires Inv(s) && s.running && !LastLoop(s).Handling?
    ensures LoopIs(s, l, Waiting) && l == |s.loops| - 1
  {
    l := |s.loops| - 1;
  }

  lemma MailboxFits(s: State)
    requires Inv(s)
    ensures |s.mailbox| <= s.capacity
  {
  }

  lemma OnlyLastAlive(s: State)
    requires Inv(s) && LastLoop(s) == Exited
    ensures AllExited(s)
  {
  }
}
