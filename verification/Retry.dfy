/** The retry loop around one call, with the circuit breaker it consults. */
module Retry {
  import opened Common
  import opened CircuitBreakers

  /** How one pass of the loop meets the world: the clock at Allow, what the call came to, the clock at a failure. */
  datatype Try = Try(allowAt: int, outcome: Result<seq<byte>, string>, failAt: int)

  /**
   What the caller gets; Nothing is the end of a loop that was never entered. To the caller it is a nil result
   and a nil error, and so is Data([]): an answer without data leaves the field out, which decodes to nil.
   */
  datatype Answer = Data(data: seq<byte>) | CircuitOpen | Failed(error: string) | Nothing

  /** The loop from pass i on: its answer, how many calls it makes, and the breaker it leaves. */
  function Passes(b: Breaker, i: nat, attempts: int, lastErr: Answer, world: nat -> Try): (r: (Answer, nat, Breaker))
    decreases attempts - i
  {
    if i >= attempts then (lastErr, 0, b)
    else
      var now := Step(b, Event.Allow(world(i).allowAt));
      if !Allows(b, world(i).allowAt) then (CircuitOpen, 0, now)
      else
        match world(i).outcome
        case Ok(data) => (Data(data), 1, Step(now, Success))
        case Err(error) =>
          var (answer, made, left) := Passes(Step(now, Failure(world(i).failAt)), i + 1, attempts, Failed(error), world);
          (answer, made + 1, left)
  }

  method CallWithOptions(cb: CircuitBreaker, retries: int, world: nat -> Try) returns (answer: Answer, made: nat)
    modifies cb
    ensures (answer, made, cb.View()) == Passes(old(cb.View()), 0, retries + 1, Nothing, world)
  {
    var attempts := retries + 1;
    var lastErr := Nothing;
    var attempt := 0;
    made := 0;
    while attempt < attempts
      invariant 0 <= attempt && (attempt <= attempts || attempt == 0)
      invariant var rest := Passes(cb.View(), attempt, attempts, lastErr, world);
                Passes(old(cb.View()), 0, attempts, Nothing, world) == (rest.0, made + rest.1, rest.2)
    {
      var allowed := cb.Allow(world(attempt).allowAt);
      if !allowed {
        return CircuitOpen, made;
      }
      made := made + 1;
      match world(attempt).outcome {
        case Ok(data) =>
          cb.RecordSuccess();
          return Data(data), made;
        case Err(error) =>
          lastErr := Failed(error);
          cb.RecordFailure(world(attempt).failAt);
      }
      attempt := attempt + 1;
    }
    answer := lastErr;
  }

  /** The first pass below n that succeeds, n if there is none. */
  function FirstSuccess(world: nat -> Try, n: nat): (f: nat)
    ensures f <= n && (f < n ==> world(f).outcome.Ok?)
    ensures forall i :: 0 <= i < f ==> world(i).outcome.Err?
  {
    if n == 0 then 0
    else
      var f := FirstSuccess(world, n - 1);
      if f < n - 1 || world(n - 1).outcome.Ok? then f else n
  }

  /** Between a failure and the next pass the clock advances by at most the open timeout. */
  predicate Prompt(world: nat -> Try, attempts: nat, openTimeout: int) {
    forall i :: 0 < i < attempts ==> world(i).allowAt <= world(i - 1).failAt + openTimeout
  }

  lemma FailedPass(b: Breaker, i: nat, attempts: int, lastErr: Answer, world: nat -> Try)
    requires i < attempts && Allows(b, world(i).allowAt) && world(i).outcome.Err?
    ensures var b' := Step(Step(b, Event.Allow(world(i).allowAt)), Failure(world(i).failAt));
            var rest := Passes(b', i + 1, attempts, Failed(world(i).outcome.error), world);
            Passes(b, i, attempts, lastErr, world) == (rest.0, rest.1 + 1, rest.2)
  {
  }

  /** A Closed breaker lets a pass through, and opens if its failure is the last it takes. */
  lemma ClosedFails(b: Breaker, allowAt: int, failAt: int)
    requires b.mode == Closed
    ensures Allows(b, allowAt)
    ensures var b' := Step(Step(b, Event.Allow(allowAt)), Failure(failAt));
            && b'.failures == b.failures + 1 && b'.threshold == b.threshold && b'.openTimeout == b.openTimeout
            && (b.failures + 1 < b.threshold ==> b'.mode == Closed)
            && (b.failures + 1 >= b.threshold ==> b'.mode == Open && b'.openUntil == failAt + b.openTimeout)
  {
  }

  /** The loop ends: at the bound, or with a success. */
  lemma LastPass(b: Breaker, i: nat, k: nat, attempts: nat, lastErr: Answer, world: nat -> Try)
    requires k < b.threshold && b.failures == k + i
    requires i <= attempts && i <= b.threshold - k && Prompt(world, attempts, b.openTimeout)
    requires forall j :: 0 <= j < i ==> world(j).outcome.Err?
    requires i < b.threshold - k ==> b.mode == Closed
    requires i == b.threshold - k ==> b.mode == Open && i > 0 && b.openUntil == world(i - 1).failAt + b.openTimeout
    requires i > 0 ==> lastErr == Failed(world(i - 1).outcome.error)
    requires 0 < attempts
    requires i == Min(attempts, b.threshold - k) || world(i).outcome.Ok?
    ensures var most := Min(attempts, b.threshold - k);
            var first := FirstSuccess(world, most);
            var r := Passes(b, i, attempts, lastErr, world);
            && i + r.1 == Min(most, first + 1)
            && r.0 == (if first < most then Data(world(first).outcome.value)
                       else if b.threshold - k < attempts then CircuitOpen
                       else Failed(world(attempts - 1).outcome.error))
  {
  }

  /** The loop after i failed passes, on a breaker that is Closed, or was just opened by the last failure. */
  lemma {:induction false} PassesFrom(b: Breaker, i: nat, k: nat, attempts: nat, lastErr: Answer, world: nat -> Try)
    requires k < b.threshold && b.failures == k + i
    requires i <= attempts && i <= b.threshold - k && Prompt(world, attempts, b.openTimeout)
    requires forall j :: 0 <= j < i ==> world(j).outcome.Err?
    requires i < b.threshold - k ==> b.mode == Closed
    requires i == b.threshold - k ==> b.mode == Open && i > 0 && b.openUntil == world(i - 1).failAt + b.openTimeout
    requires i > 0 ==> lastErr == Failed(world(i - 1).outcome.error)
    requires 0 < attempts
    ensures var most := Min(attempts, b.threshold - k);
            var first := FirstSuccess(world, most);
            var r := Passes(b, i, attempts, lastErr, world);
            && i + r.1 == Min(most, first + 1)
            && r.0 == (if first < most then Data(world(first).outcome.value)
                       else if b.threshold - k < attempts then CircuitOpen
                       else Failed(world(attempts - 1).outcome.error))
    decreases attempts - i
  {
    hide Passes, Step, Allows, FirstSuccess, Prompt;
    if i == Min(attempts, b.threshold - k) || world(i).outcome.Ok? {
      LastPass(b, i, k, attempts, lastErr, world);
    } else {
      ClosedFails(b, world(i).allowAt, world(i).failAt);
      FailedPass(b, i, attempts, lastErr, world);
      var b' := Step(Step(b, Event.Allow(world(i).allowAt)), Failure(world(i).failAt));
      PassesFrom(b', i + 1, k, attempts, Failed(world(i).outcome.error), world);
    }
  }

  /**
   A lone call with R >= 0 retries, on a Closed breaker with k failures below its threshold T, makes exactly
   as many attempts as the smallest of R + 1, T - k and the number of the first attempt that succeeds. It
   returns that attempt's data; without a success it returns CircuitOpen exactly when the T - k failures
   opened the breaker with retries left, and the last error otherwise.
   */
  lemma RetryStopsAt(b: Breaker, retries: nat, world: nat -> Try)
    requires b.mode == Closed && b.failures < b.threshold
    requires Prompt(world, retries + 1, b.openTimeout)
    ensures var budget := b.threshold - b.failures;
            var most := Min(retries + 1, budget);
            var first := FirstSuccess(world, most);
            var (answer, made, _) := Passes(b, 0, retries + 1, Nothing, world);
            && made == Min(most, first + 1)
            && (first < most ==> answer == Data(world(first).outcome.value))
            && (first == most ==> answer == if budget < retries + 1 then CircuitOpen
                                            else Failed(world(retries).outcome.error))
            && (answer == CircuitOpen <==> first == most == budget && budget < retries + 1)
  {
    hide Passes, Step, Allows, FirstSuccess, Prompt;
    PassesFrom(b, 0, b.failures, retries + 1, Nothing, world);
  }

  /**
   On any breaker, the loop is not entered exactly when the retry count is negative. The caller then gets a
   nil result and a nil error; it can get those in another way too, see EmptyHandedIff.
   */
  lemma NothingIffNegativeRetries(b: Breaker, retries: int, world: nat -> Try)
    ensures Passes(b, 0, retries + 1, Nothing, world).0 == Nothing <==> retries < 0
    ensures Passes(b, 0, retries + 1, Nothing, world).1 == 0 <==> retries < 0 || !Allows(b, world(0).allowAt)
  {
    if retries >= 0 && Allows(b, world(0).allowAt) && world(0).outcome.Err? {
      var b' := Step(Step(b, Event.Allow(world(0).allowAt)), Failure(world(0).failAt));
      NeverNothing(b', 1, retries + 1, Failed(world(0).outcome.error), world);
    }
  }

  /** What the caller sees as a nil result and a nil error: the loop was not entered, or a success had no data. */
  predicate EmptyHanded(answer: Answer) {
    answer == Nothing || answer == Data([])
  }

  /** All passes but the last fail, and the last decides whether there are data, and which. */
  lemma {:induction false} LastPassDecides(b: Breaker, i: nat, attempts: int, lastErr: Answer, world: nat -> Try)
    requires !lastErr.Data?
    ensures var (answer, made, _) := Passes(b, i, attempts, lastErr, world);
            && (forall j :: i <= j < i + made - 1 ==> world(j).outcome.Err?)
            && (answer.Data? <==> made > 0 && world(i + made - 1).outcome.Ok?)
            && (answer.Data? ==> answer.data == world(i + made - 1).outcome.value)
    decreases attempts - i
  {
    if i < attempts && Allows(b, world(i).allowAt) && world(i).outcome.Err? {
      var b' := Step(Step(b, Event.Allow(world(i).allowAt)), Failure(world(i).failAt));
      LastPassDecides(b', i + 1, attempts, Failed(world(i).outcome.error), world);
    }
  }

  /**
   On any breaker, the caller gets a nil result and a nil error exactly when the retry count is negative, or
   the first success among the attempts made has no data.
   */
  lemma EmptyHandedIff(b: Breaker, retries: int, world: nat -> Try)
    ensures var (answer, made, _) := Passes(b, 0, retries + 1, Nothing, world);
            var first := FirstSuccess(world, made);
            EmptyHanded(answer) <==> retries < 0 || (first < made && world(first).outcome.value == [])
  {
    var (answer, made, left) := Passes(b, 0, retries + 1, Nothing, world);
    LastPassDecides(b, 0, retries + 1, Nothing, world);
    NothingIffNegativeRetries(b, retries, world);
    hide Passes;
    var first := FirstSuccess(world, made);
    assert first < made ==> first == made - 1;
  }

  lemma {:induction false} NeverNothing(b: Breaker, i: nat, attempts: int, lastErr: Answer, world: nat -> Try)
    requires lastErr != Nothing
    ensures Passes(b, i, attempts, lastErr, world).0 != Nothing
    decreases attempts - i
  {
    if i < attempts && Allows(b, world(i).allowAt) && world(i).outcome.Err? {
      var b' := Step(Step(b, Event.Allow(world(i).allowAt)), Failure(world(i).failAt));
      NeverNothing(b', i + 1, attempts, Failed(world(i).outcome.error), world);
    }
  }

  // ---------------------------------------------------------------- what the loop leaves behind

  /** What the first n passes record in the breaker. */
  function Recorded(world: nat -> Try, n: nat): seq<Event> {
    if n == 0 then []
    else
      var last := world(n - 1);
      Recorded(world, n - 1) + [Event.Allow(last.allowAt), if last.outcome.Ok? then Success else Failure(last.failAt)]
  }

  /** The breaker as the pass after the first n finds it. */
  function Found(b: Breaker, world: nat -> Try, n: nat): Breaker {
    CircuitBreakers.Play(b, Recorded(world, n))
  }

  lemma FoundNone(b: Breaker, world: nat -> Try)
    ensures Found(b, world, 0) == b
  {
  }

  lemma FoundNext(b: Breaker, world: nat -> Try, n: nat)
    ensures var pass := world(n);
            Found(b, world, n + 1) == Step(Step(Found(b, world, n), Event.Allow(pass.allowAt)),
                                           if pass.outcome.Ok? then Success else Failure(pass.failAt))
  {
    var pass := world(n);
    var result := if pass.outcome.Ok? then Success else Failure(pass.failAt);
    var events := Recorded(world, n);
    assert Recorded(world, n + 1) == (events + [Event.Allow(pass.allowAt)]) + [result];
    PlayOne(b, events, Event.Allow(pass.allowAt));
    PlayOne(b, events + [Event.Allow(pass.allowAt)], result);
  }

  lemma PlayOne(b: Breaker, events: seq<Event>, e: Event)
    ensures CircuitBreakers.Play(b, events + [e]) == Step(CircuitBreakers.Play(b, events), e)
  {
    assert (events + [e])[..|events|] == events;
  }

  /**
   What a loop that made so many attempts did: the breaker let each of them through, all but the last failed, and
   the loop ended with a success, with a refusal, or with its last error when the attempts were used up.
   */
  predicate Ended(b: Breaker, attempts: int, world: nat -> Try, made: nat, answer: Answer, left: Breaker) {
    && (forall j :: 0 <= j < made ==> Allows(Found(b, world, j), world(j).allowAt))
    && (forall j :: 0 <= j < made - 1 ==> world(j).outcome.Err?)
    && match answer
       case Data(data) => 0 < made <= attempts && world(made - 1).outcome == Ok(data) && left == Found(b, world, made)
       case CircuitOpen =>
         && made < attempts && (made > 0 ==> world(made - 1).outcome.Err?)
         && !Allows(Found(b, world, made), world(made).allowAt) && left == Found(b, world, made)
       case Failed(error) => 0 < made == attempts && world(made - 1).outcome == Err(error) && left == Found(b, world, made)
       case Nothing => made == 0 && attempts <= 0 && left == b
  }

  lemma {:induction false} EndsFrom(b: Breaker, i: nat, attempts: int, lastErr: Answer, world: nat -> Try)
    requires forall j :: 0 <= j < i ==> Allows(Found(b, world, j), world(j).allowAt) && world(j).outcome.Err?
    requires lastErr == if i == 0 then Nothing else Failed(world(i - 1).outcome.error)
    requires i == 0 || i <= attempts
    ensures var (answer, made, left) := Passes(Found(b, world, i), i, attempts, lastErr, world);
            Ended(b, attempts, world, i + made, answer, left)
    decreases attempts - i
  {
    FoundNone(b, world);
    hide Found, Allows, Step;
    RefusalChangesNothing(Found(b, world, i), world(i).allowAt);
    FoundNext(b, world, i);
    if i < attempts && Allows(Found(b, world, i), world(i).allowAt) && world(i).outcome.Err? {
      EndsFrom(b, i + 1, attempts, Failed(world(i).outcome.error), world);
    }
  }

  lemma RefusalChangesNothing(b: Breaker, now: int)
    ensures !Allows(b, now) ==> Step(b, Event.Allow(now)) == b
  {
  }

  /**
   The loop on any breaker, for any retry count: what it does and returns, and that the breaker it leaves is the
   one it found with just its own attempts recorded, in order.
   */
  lemma LoopDoes(b: Breaker, retries: int, world: nat -> Try)
    ensures var (answer, made, left) := Passes(b, 0, retries + 1, Nothing, world);
            && Ended(b, retries + 1, world, made, answer, left)
            && left == CircuitBreakers.Play(b, Recorded(world, made))
  {
    hide Passes, Allows, Step, Found, CircuitBreakers.Play, Recorded, Ended;
    FoundNone(b, world);
    var (answer, made, left) := Passes(b, 0, retries + 1, Nothing, world);
    EndsFrom(b, 0, retries + 1, Nothing, world);
    LeavesWhatItRecorded(b, retries + 1, world, made, answer, left);
  }

  lemma LeavesWhatItRecorded(b: Breaker, attempts: int, world: nat -> Try, made: nat, answer: Answer, left: Breaker)
    requires Ended(b, attempts, world, made, answer, left)
    ensures left == CircuitBreakers.Play(b, Recorded(world, made))
  {
    FoundNone(b, world);
    hide Recorded, Allows, CircuitBreakers.Play;
  }

  /** From call to call: the breaker's whole history is the history before, then this loop's attempts, so HistoryDecides applies. */
  lemma HistoryGoesOn(start: Breaker, before: seq<Event>, retries: int, world: nat -> Try)
    ensures var (_, made, left) := Passes(CircuitBreakers.Play(start, before), 0, retries + 1, Nothing, world);
            left == CircuitBreakers.Play(start, before + Recorded(world, made))
  {
    hide Passes, Ended, CircuitBreakers.Play, Recorded;
    var b := CircuitBreakers.Play(start, before);
    LoopDoes(b, retries, world);
    PlayJoins(start, before, Recorded(world, Passes(b, 0, retries + 1, Nothing, world).1));
  }

  lemma {:induction false} PlayJoins(b: Breaker, before: seq<Event>, after: seq<Event>)
    ensures CircuitBreakers.Play(CircuitBreakers.Play(b, before), after) == CircuitBreakers.Play(b, before + after)
    decreases |after|
  {
    hide Step;
    if after == [] {
      assert before + after == before;
    } else {
      PlayJoins(b, before, after[..|after| - 1]);
      assert (before + after)[..|before + after| - 1] == before + after[..|after| - 1];
    }
  }

  /**
   The count the loop leaves: a success closes the breaker and clears its failures, however many there were; else
   each attempt made adds one, and from the threshold on the breaker is open until the timeout after the last.
   */
  lemma LoopLeaves(b: Breaker, retries: int, world: nat -> Try)
    ensures var (answer, made, left) := Passes(b, 0, retries + 1, Nothing, world);
            && left.threshold == b.threshold && left.openTimeout == b.openTimeout
            && (answer.Data? ==> left.mode == Closed && left.failures == 0)
            && (!answer.Data? ==> left.failures == b.failures + made)
            && (!answer.Data? && made > 0 && left.failures >= b.threshold ==>
                  left.mode == Open && left.openUntil == world(made - 1).failAt + b.openTimeout)
            && (made == 0 ==> left == b)
  {
    hide Passes, Allows, Step, Found, CircuitBreakers.Play, Recorded;
    FoundNone(b, world);
    EndsFrom(b, 0, retries + 1, Nothing, world);
    var (answer, made, left) := Passes(b, 0, retries + 1, Nothing, world);
    if made > 0 {
      FoundNext(b, world, made - 1);
      AllFailed(b, world, made - 1);
      LastRecorded(Found(b, world, made - 1), world(made - 1));
    }
  }

  lemma {:induction false} AllFailed(b: Breaker, world: nat -> Try, n: nat)
    requires forall j :: 0 <= j < n ==> world(j).outcome.Err?
    ensures var left := Found(b, world, n);
            left.failures == b.failures + n && left.threshold == b.threshold && left.openTimeout == b.openTimeout
  {
    hide Step;
    if n > 0 {
      AllFailed(b, world, n - 1);
      FoundNext(b, world, n - 1);
      LastRecorded(Found(b, world, n - 1), world(n - 1));
    }
  }

  lemma LastRecorded(b: Breaker, pass: Try)
    ensures var left := Step(Step(b, Event.Allow(pass.allowAt)), if pass.outcome.Ok? then Success else Failure(pass.failAt));
            && left.threshold == b.threshold && left.openTimeout == b.openTimeout
            && (pass.outcome.Ok? ==> left.mode == Closed && left.failures == 0)
            && (pass.outcome.Err? ==>
                  && left.failures == b.failures + 1
                  && (left.failures >= b.threshold ==> left.mode == Open && left.openUntil == pass.failAt + b.openTimeout))
  {
  }
}
