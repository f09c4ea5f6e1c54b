/** The circuit breaker: its fields, and what its state says about the history of calls recorded in it. */
module CircuitBreakers {
  datatype Mode = Closed | Open | HalfOpen

  /** The breaker's fields. Times are clock readings, `openUntil` matters only while the mode is Open. */
  datatype Breaker = Breaker(mode: Mode, failures: nat, threshold: nat, openUntil: int, openTimeout: int)

  function Fresh(threshold: nat, openTimeout: int): Breaker {
    Breaker(Closed, 0, threshold, 0, openTimeout)
  }

  predicate Allows(b: Breaker, now: int) {
    b.mode != Open || now > b.openUntil
  }

  /** One locked operation, with the clock reading it made. */
  datatype Event = Allow(now: int) | Success | Failure(now: int)

  function Step(b: Breaker, e: Event): Breaker {
    match e
    case Allow(now) => if b.mode == Open && now > b.openUntil then b.(mode := HalfOpen) else b
    case Success => b.(failures := 0, mode := Closed)
    case Failure(now) =>
      if b.failures + 1 >= b.threshold
      then b.(failures := b.failures + 1, mode := Open, openUntil := now + b.openTimeout)
      else b.(failures := b.failures + 1)
  }

  function Play(b: Breaker, events: seq<Event>): Breaker {
    if events == [] then b else Step(Play(b, events[..|events| - 1]), events[|events| - 1])
  }

  class CircuitBreaker {
    var state: Mode
    var failures: nat
    const failureThreshold: nat
    var openUntil: int
    const openTimeout: int

    function View(): Breaker
      reads this
    {
      Breaker(state, failures, failureThreshold, openUntil, openTimeout)
    }

    /** Missing settings become 5 failures and 30 seconds, in nanoseconds. */
    constructor (failureThreshold: int, openTimeout: int)
      ensures View() == Fresh(if failureThreshold <= 0 then 5 else failureThreshold,
                              if openTimeout <= 0 then 30_000_000_000 else openTimeout)
      ensures View().threshold >= 1 && View().openTimeout >= 1
    {
      state, failures, openUntil := Closed, 0, 0;
      this.failureThreshold := if failureThreshold <= 0 then 5 else failureThreshold;
      this.openTimeout := if openTimeout <= 0 then 30_000_000_000 else openTimeout;
    }

    method Allow(now: int) returns (ok: bool)
      modifies this
      ensures ok == Allows(old(View()), now) && View() == Step(old(View()), Event.Allow(now))
    {
      if state == Open && now > openUntil {
        state := HalfOpen;
        return true;
      }
      return state != Open;
    }

    method RecordSuccess()
      modifies this
      ensures View() == Step(old(View()), Success)
    {
      failures := 0;
      state := Closed;
    }

    method RecordFailure(now: int)
      modifies this
      ensures View() == Step(old(View()), Failure(now))
    {
      failures := failures + 1;
      if failures >= failureThreshold {
        state := Open;
        openUntil := now + openTimeout;
      }
    }
  }

  // ---------------------------------------------------------------- history

  /** The failures recorded since the last success. */
  function FailuresSince(events: seq<Event>): nat {
    if events == [] then 0
    else
      match events[|events| - 1]
      case Success => 0
      case Failure(_) => FailuresSince(events[..|events| - 1]) + 1
      case Allow(_) => FailuresSince(events[..|events| - 1])
  }

  /** Since the last failure a call has come after its timeout. */
  predicate Probed(events: seq<Event>, openTimeout: int)
    requires FailuresSince(events) > 0
  {
    var front, last := events[..|events| - 1], events[|events| - 1];
    last.Allow? && (last.now > LastFailure(front) + openTimeout || Probed(front, openTimeout))
  }

  /** The clock reading of the last failure. */
  function LastFailure(events: seq<Event>): int
    requires FailuresSince(events) > 0
  {
    var last := events[|events| - 1];
    if last.Failure? then last.now else LastFailure(events[..|events| - 1])
  }

  /** The last clock reading of all, `start` if there was none. */
  function LastReading(events: seq<Event>, start: int): int {
    if events == [] then start
    else if events[|events| - 1].Success? then LastReading(events[..|events| - 1], start)
    else events[|events| - 1].now
  }

  /** The clock never runs backwards. */
  predicate Monotone(events: seq<Event>, start: int) {
    events == [] ||
      (&& Monotone(events[..|events| - 1], start)
       && LastReading(events[..|events| - 1], start) <= LastReading(events, start))
  }

  /**
   In every interleaving of operations on one breaker, its state is decided by the history: the failure
   count is the failures since the last success, it is Closed exactly while they are below the threshold, half
   open exactly if a call has come after the timeout since, and a call is refused exactly when they have reached it and the last of them is at most the timeout ago.
   */
  lemma {:induction false} HistoryDecides(threshold: nat, openTimeout: int, events: seq<Event>, start: int)
    requires threshold >= 1 && Monotone(events, start)
    ensures var b := Play(Fresh(threshold, openTimeout), events);
            && b.threshold == threshold && b.openTimeout == openTimeout
            && b.failures == FailuresSince(events)
            && (b.mode == Closed <==> FailuresSince(events) < threshold)
            && (b.mode == HalfOpen <==> FailuresSince(events) >= threshold && Probed(events, openTimeout))
            && (FailuresSince(events) >= threshold ==>
                  && b.openUntil == LastFailure(events) + openTimeout
                  && (b.mode == HalfOpen ==> LastReading(events, start) > b.openUntil))
            && (forall t :: t >= LastReading(events, start) ==>
                  (!Allows(b, t) <==> FailuresSince(events) >= threshold && t <= LastFailure(events) + openTimeout))
  {
    if events != [] {
      HistoryDecides(threshold, openTimeout, events[..|events| - 1], start);
    }
  }

  /**
   After a failure at time f that leaves the count at the threshold or above, every call up to f plus the
   timeout is refused, whatever else is recorded in between, unless a success is.
   */
  lemma RefusedUntilTimeout(threshold: nat, openTimeout: int, before: seq<Event>, f: int, after: seq<Event>, start: int, t: int)
    requires threshold >= 1 && Monotone(before + [Failure(f)] + after, start)
    requires FailuresSince(before + [Failure(f)]) >= threshold
    requires Success !in after
    requires LastReading(before + [Failure(f)] + after, start) <= t <= f + openTimeout
    ensures !Allows(Play(Fresh(threshold, openTimeout), before + [Failure(f)] + after), t)
  {
    var events := before + [Failure(f)] + after;
    HistoryDecides(threshold, openTimeout, events, start);
    FailuresOnlyGrow(before, f, after, start);
  }

  lemma {:induction false} FailuresOnlyGrow(before: seq<Event>, f: int, after: seq<Event>, start: int)
    requires Monotone(before + [Failure(f)] + after, start) && Success !in after
    ensures var events := before + [Failure(f)] + after;
            && FailuresSince(events) >= FailuresSince(before + [Failure(f)]) > 0
            && f <= LastFailure(events) <= LastReading(events, start)
    decreases |after|
  {
    var events := before + [Failure(f)] + after;
    if after == [] {
      assert events == before + [Failure(f)];
      assert events[..|events| - 1] == before;
    } else {
      var shorter := after[..|after| - 1];
      assert events[..|events| - 1] == before + [Failure(f)] + shorter;
      FailuresOnlyGrow(before, f, shorter, start);
      assert events[|events| - 1] in after;
    }
  }
}
