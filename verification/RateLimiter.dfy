/** The fixed-window rate limiter, and how many calls it can let through in any stretch of time. */
module RateLimiter {
  import opened Common

  /** A key's limiter. Its window and maximum are those of the call that made it; later ones are ignored. */
  datatype Limiter = Limiter(requests: int, window: int, lastReset: int, maxRequests: int)

  /** One call: the key, its arguments, and the two clock readings (the first is used only for a new key). */
  datatype Call = Call(key: string, maxRequests: int, window: int, first: int, now: int)

  function Start(limiters: map<string, Limiter>, c: Call): Limiter {
    if c.key in limiters then limiters[c.key] else Limiter(0, c.window, c.first, c.maxRequests)
  }

  /** The limiter after the window has been reset if it is over. */
  function Rolled(l: Limiter, now: int): Limiter {
    if now - l.lastReset > l.window then l.(requests := 0, lastReset := now) else l
  }

  predicate Admits(l: Limiter) {
    l.requests < l.maxRequests
  }

  function Counted(l: Limiter): Limiter {
    if Admits(l) then l.(requests := l.requests + 1) else l
  }

  class RateLimitManager {
    var limiters: map<string, Limiter>

    constructor ()
      ensures limiters == map[]
    {
      limiters := map[];
    }

    method CheckLimit(c: Call) returns (ok: bool)
      modifies this
      ensures ok == Admits(Rolled(Start(old(limiters), c), c.now))
      ensures limiters == After(old(limiters), c)
    {
      var limiter;
      if c.key !in limiters {
        limiter := Limiter(0, c.window, c.first, c.maxRequests);
        limiters := limiters[c.key := limiter];
      } else {
        limiter := limiters[c.key];
      }
      if c.now - limiter.lastReset > limiter.window {
        limiter := limiter.(requests := 0, lastReset := c.now);
      }
      ok := limiter.requests < limiter.maxRequests;
      if ok {
        limiter := limiter.(requests := limiter.requests + 1);
      }
      limiters := limiters[c.key := limiter];
    }
  }

  function After(limiters: map<string, Limiter>, c: Call): map<string, Limiter> {
    limiters[c.key := Counted(Rolled(Start(limiters, c), c.now))]
  }

  // ---------------------------------------------------------------- histories

  function State(calls: seq<Call>): map<string, Limiter> {
    if calls == [] then map[] else After(State(Front(calls)), Last(calls))
  }

  function Front(calls: seq<Call>): seq<Call>
    requires calls != []
  {
    calls[..|calls| - 1]
  }

  function Last(calls: seq<Call>): Call
    requires calls != []
  {
    calls[|calls| - 1]
  }

  /** Whether the last call is let through. */
  predicate LastAdmitted(calls: seq<Call>)
    requires calls != []
  {
    Admits(Rolled(Start(State(Front(calls)), Last(calls)), Last(calls).now))
  }

  /** The clock never runs backwards, within a call or from one to the next. */
  predicate Monotone(calls: seq<Call>) {
    calls != [] ==>
      && Monotone(Front(calls)) && Last(calls).first <= Last(calls).now
      && (Front(calls) != [] ==> Last(Front(calls)).now <= Last(calls).first)
  }

  /** The calls for a key let through at or after a time. */
  function AdmittedSince(calls: seq<Call>, key: string, lo: int): nat {
    if calls == [] then 0
    else AdmittedSince(Front(calls), key, lo)
         + if Last(calls).key == key && Last(calls).now >= lo && LastAdmitted(calls) then 1 else 0
  }

  /** The calls for a key let through in the closed interval from lo to hi. */
  function AdmittedIn(calls: seq<Call>, key: string, lo: int, hi: int): nat {
    if calls == [] then 0
    else AdmittedIn(Front(calls), key, lo, hi)
         + if Last(calls).key == key && lo <= Last(calls).now <= hi && LastAdmitted(calls) then 1 else 0
  }

  /** Whether the last call finds its key's window over and resets it. */
  predicate LastResets(calls: seq<Call>)
    requires calls != []
  {
    var l := Start(State(Front(calls)), Last(calls));
    Last(calls).now - l.lastReset > l.window
  }

  /** How often a key's window was reset at or after a time (its making does not count). */
  function ResetsSince(calls: seq<Call>, key: string, lo: int): nat {
    if calls == [] then 0
    else ResetsSince(Front(calls), key, lo)
         + if Last(calls).key == key && Last(calls).now >= lo && LastResets(calls) then 1 else 0
  }

  lemma {:induction false} UnknownKey(calls: seq<Call>, key: string, lo: int)
    requires key !in State(calls)
    ensures AdmittedSince(calls, key, lo) == 0 && ResetsSince(calls, key, lo) == 0
  {
    if calls != [] {
      UnknownKey(Front(calls), key, lo);
    }
  }

  lemma {:induction false} NothingSinceLater(calls: seq<Call>, key: string, lo: int)
    requires Monotone(calls) && (calls != [] ==> Last(calls).now < lo)
    ensures AdmittedSince(calls, key, lo) == 0 && ResetsSince(calls, key, lo) == 0
  {
    if calls != [] {
      NothingSinceLater(Front(calls), key, lo);
    }
  }

  // ---------------------------------------------------------------- the bound

  /** How a key's limiter accounts for the calls let through since lo. */
  predicate Accounts(l: Limiter, admitted: nat, resets: nat, lo: int, now: int) {
    && 0 <= l.requests <= Max(0, l.maxRequests)
    && l.lastReset <= now
    && admitted <= resets * Max(0, l.maxRequests) + l.requests
    && (resets >= 1 ==> l.lastReset >= lo + (resets - 1) * l.window)
    && (resets >= 2 ==> l.lastReset > lo + (resets - 1) * l.window)
  }

  lemma ResetAccounts(l: Limiter, admitted: nat, resets: nat, lo: int, before: int, now: int)
    requires Accounts(l, admitted, resets, lo, before) && lo <= now && now - l.lastReset > l.window
    ensures Accounts(l.(requests := 0, lastReset := now), admitted, resets + 1, lo, now)
  {
    var m := Max(0, l.maxRequests);
    assert (resets + 1) * m == resets * m + m;
    assert resets * l.window == (resets - 1) * l.window + l.window;
  }

  lemma {:induction false} StateAccounts(calls: seq<Call>, key: string, lo: int)
    requires Monotone(calls) && key in State(calls)
    ensures calls != []
    ensures Accounts(State(calls)[key], AdmittedSince(calls, key, lo), ResetsSince(calls, key, lo), lo, Last(calls).now)
  {
    var c, before := Last(calls), Front(calls);
    if c.key != key {
      StateAccounts(before, key, lo);
    } else {
      var l := Start(State(before), c);
      var admitted, resets := AdmittedSince(before, key, lo), ResetsSince(before, key, lo);
      if key in State(before) {
        StateAccounts(before, key, lo);
      } else {
        UnknownKey(before, key, lo);
      }
      assert Accounts(l, admitted, resets, lo, c.now);
      if c.now < lo {
        NothingSinceLater(calls, key, lo);
      } else if LastResets(calls) {
        ResetAccounts(l, admitted, resets, lo, c.now, c.now);
      }
    }
  }

  /** In a stretch of k windows at most k resets happen. */
  lemma FewResets(resets: nat, k: nat, window: int, lo: int, lastReset: int, hi: int)
    requires k >= 1 && lastReset <= hi && lo <= hi && hi - lo <= k * window
    requires resets >= 2 ==> lastReset > lo + (resets - 1) * window
    ensures resets <= k
  {
    if window < 0 {
      NegativeTimes(k, window);
    } else if resets > k {
      TimesGrows(k, resets - 1, window);
    }
  }

  lemma NegativeTimes(k: int, c: int)
    requires k >= 1 && c < 0
    ensures k * c < 0
  {
    assert (k - 1) * c <= 0;
  }

  lemma {:induction false} WithinIsSince(calls: seq<Call>, key: string, lo: int, hi: int)
    requires Monotone(calls) && (calls != [] ==> Last(calls).now <= hi)
    ensures AdmittedIn(calls, key, lo, hi) == AdmittedSince(calls, key, lo)
  {
    if calls != [] {
      WithinIsSince(Front(calls), key, lo, hi);
    }
  }

  /**
   The bound: whatever calls are made for whatever keys, in any stretch of time no longer than k windows
   (k >= 1) at most (k + 1) * maxRequests calls for one key are let through.
   */
  lemma {:induction false} BoundOverEveryInterval(calls: seq<Call>, key: string, lo: int, hi: int, k: nat)
    requires Monotone(calls) && key in State(calls) && k >= 1
    requires lo <= hi && hi - lo <= k * State(calls)[key].window
    ensures AdmittedIn(calls, key, lo, hi) <= (k + 1) * Max(0, State(calls)[key].maxRequests)
  {
    if Last(calls).now > hi {
      if key in State(Front(calls)) {
        BoundOverEveryInterval(Front(calls), key, lo, hi, k);
      } else {
        UnknownKey(Front(calls), key, lo);
        InIsAtMostSince(Front(calls), key, lo, hi);
        TimesGrows(0, k + 1, Max(0, State(calls)[key].maxRequests));
      }
    } else {
      WithinIsSince(calls, key, lo, hi);
      StateAccounts(calls, key, lo);
      AccountIsBounded(State(calls)[key], AdmittedSince(calls, key, lo), ResetsSince(calls, key, lo), lo, Last(calls).now, hi, k);
    }
  }

  lemma AccountIsBounded(l: Limiter, admitted: nat, resets: nat, lo: int, now: int, hi: int, k: nat)
    requires Accounts(l, admitted, resets, lo, now) && now <= hi
    requires lo <= hi && k >= 1 && hi - lo <= k * l.window
    ensures admitted <= (k + 1) * Max(0, l.maxRequests)
  {
    var m := Max(0, l.maxRequests);
    FewResets(resets, k, l.window, lo, l.lastReset, hi);
    TimesGrows(resets, k, m);
    assert (k + 1) * m == k * m + m;
  }

  lemma {:induction false} InIsAtMostSince(calls: seq<Call>, key: string, lo: int, hi: int)
    ensures AdmittedIn(calls, key, lo, hi) <= AdmittedSince(calls, key, lo)
  {
    if calls != [] {
      InIsAtMostSince(Front(calls), key, lo, hi);
    }
  }

  // ---------------------------------------------------------------- the bound is met

  /** A history in which key "a" is used alone, with `n` calls let through in [0, hi] and the limiter left at l. */
  predicate Spent(calls: seq<Call>, l: Limiter, now: int, hi: int, n: nat) {
    && calls != [] && Monotone(calls) && Last(calls).now == now
    && "a" in State(calls) && State(calls)["a"] == l && AdmittedIn(calls, "a", 0, hi) == n
  }

  /** One more call that is let through: in the present window, or in a new one if that is over. */
  lemma OneMoreIsLetThrough(calls: seq<Call>, l: Limiter, before: int, hi: int, n: nat, now: int)
    requires Spent(calls, l, before, hi, n) && before <= now && 0 <= now <= hi && Admits(Rolled(l, now))
    ensures Spent(calls + [Call("a", l.maxRequests, l.window, now, now)], Counted(Rolled(l, now)), now, hi, n + 1)
  {
    var c := Call("a", l.maxRequests, l.window, now, now);
    assert Front(calls + [c]) == calls && Last(calls + [c]) == c;
  }

  /** Using up the rest of a window at one moment. */
  lemma {:induction false} UseUp(calls: seq<Call>, l: Limiter, now: int, hi: int, n: nat) returns (more: seq<Call>)
    requires Spent(calls, l, now, hi, n) && 0 <= now <= hi && now - l.lastReset <= l.window && l.requests <= l.maxRequests
    ensures Spent(more, l.(requests := l.maxRequests), now, hi, n + l.maxRequests - l.requests)
    decreases l.maxRequests - l.requests
  {
    more := calls;
    if l.requests < l.maxRequests {
      OneMoreIsLetThrough(calls, l, now, hi, n, now);
      more := UseUp(calls + [Call("a", l.maxRequests, l.window, now, now)], l.(requests := l.requests + 1), now, hi, n + 1);
    }
  }

  /** After the key's first call and i resets, each in the first tick after the window before it. */
  lemma {:induction false} ManyWindows(k: nat, m: nat, window: nat, i: nat) returns (calls: seq<Call>)
    requires 1 <= k <= window && m >= 1 && i <= k
    ensures var reset := i * (window + 1) - k;
            Spent(calls, Limiter(m, window, reset, m), Max(0, reset), k * window, (i + 1) * m)
  {
    hide Spent;
    if i == 0 {
      calls := OneCall(k, m, window);
      calls := FirstWindow(calls, k, m, window);
    } else {
      var before := ManyWindows(k, m, window, i - 1);
      InTime(k, window, i);
      calls := NextWindow(before, m, window, (i - 1) * (window + 1) - k, k * window, i * m);
    }
  }

  lemma FirstWindow(calls: seq<Call>, k: nat, m: nat, window: nat) returns (more: seq<Call>)
    requires 1 <= k <= window && m >= 1 && Spent(calls, Limiter(1, window, 0 - k, m), 0, k * window, 1)
    ensures Spent(more, Limiter(m, window, 0 - k, m), 0, k * window, m)
  {
    TimesGrows(0, k, window);
    more := UseUp(calls, Limiter(1, window, 0 - k, m), 0, k * window, 1);
  }

  lemma NextWindow(calls: seq<Call>, m: nat, window: nat, last: int, hi: int, n: nat) returns (more: seq<Call>)
    requires m >= 1 && Spent(calls, Limiter(m, window, last, m), Max(0, last), hi, n) && 1 <= last + window + 1 <= hi
    ensures Spent(more, Limiter(m, window, last + window + 1, m), last + window + 1, hi, n + m)
  {
    var now := last + window + 1;
    OneMoreIsLetThrough(calls, Limiter(m, window, last, m), Max(0, last), hi, n, now);
    more := UseUp(calls + [Call("a", m, window, now, now)], Limiter(1, window, now, m), now, hi, n + 1);
  }

  lemma InTime(k: nat, window: nat, i: nat)
    requires 1 <= k <= window && 1 <= i <= k
    ensures 0 <= k * window && 1 <= i * (window + 1) - k <= k * window
    ensures i * (window + 1) - k == (i - 1) * (window + 1) - k + window + 1
  {
    TimesGrows(i, k, window + 1);
    TimesGrows(1, i, window + 1);
    assert k * (window + 1) == k * window + k;
  }

  lemma OneCall(k: nat, m: nat, window: nat) returns (calls: seq<Call>)
    requires 1 <= k <= window && m >= 1
    ensures Spent(calls, Limiter(1, window, 0 - k, m), 0, k * window, 1)
  {
    calls := [Call("a", m, window, 0 - k, 0)];
    TimesGrows(0, k, window);
    assert Front(calls) == [] && State([]) == map[];
    assert Monotone([]) && AdmittedIn([], "a", 0, k * window) == 0;
  }

  /**
   The bound cannot be lowered: for every maximum m >= 1, every number k of windows and every window of at
   least k ticks, some calls have exactly (k + 1) * m let through in k windows. (The first one sees the clock
   advance between its two readings.)
   */
  lemma BoundIsMet(k: nat, m: nat, window: nat)
    requires 1 <= k <= window && m >= 1
    ensures exists calls :: Monotone(calls) && "a" in State(calls)
              && State(calls)["a"].window == window && State(calls)["a"].maxRequests == m
              && AdmittedIn(calls, "a", 0, k * window) == (k + 1) * m
  {
    var calls := ManyWindows(k, m, window, k);
  }

  // ---------------------------------------------------------------- why a call is rejected

  /** The calls for a key let through at or after position j. */
  function AdmittedFrom(calls: seq<Call>, key: string, j: nat): nat {
    if |calls| <= j then 0
    else AdmittedFrom(Front(calls), key, j) + if Last(calls).key == key && LastAdmitted(calls) then 1 else 0
  }

  /** Whether the last call opens a window: its key is new, or its window was over. */
  predicate Opens(calls: seq<Call>)
    requires calls != []
  {
    Last(calls).key !in State(Front(calls)) || LastResets(calls)
  }

  function OpenedAt(calls: seq<Call>): int
    requires calls != []
  {
    if LastResets(calls) then Last(calls).now else Last(calls).first
  }

  /** The call that opened the present window of a key. */
  lemma {:induction false} PresentWindow(calls: seq<Call>, key: string) returns (j: nat)
    requires key in State(calls)
    ensures j < |calls| && calls[j].key == key && Opens(calls[..j + 1])
    ensures OpenedAt(calls[..j + 1]) == State(calls)[key].lastReset
    ensures AdmittedFrom(calls, key, j) == State(calls)[key].requests
  {
    var before := Front(calls);
    if Last(calls).key == key && Opens(calls) {
      j := |before|;
      assert calls[..j + 1] == calls;
    } else {
      j := PresentWindow(before, key);
      assert calls[..j + 1] == before[..j + 1];
    }
  }

  /**
   A rejection is never gratuitous: when the last call is rejected, its key's window was opened no more than
   one window before, and since then exactly the maximum number of calls were let through.
   */
  lemma RejectionIsJustified(calls: seq<Call>)
    requires Monotone(calls) && calls != [] && !LastAdmitted(calls)
    ensures Last(calls).key in State(calls)
    ensures var c, l := Last(calls), State(calls)[Last(calls).key];
            exists j :: 0 <= j < |calls| && calls[j].key == c.key && Opens(calls[..j + 1])
              && c.now - OpenedAt(calls[..j + 1]) <= Max(0, l.window)
              && AdmittedFrom(calls, c.key, j) == Max(0, l.maxRequests)
  {
    var c := Last(calls);
    StateAccounts(calls, c.key, c.now);
    var j := PresentWindow(calls, c.key);
  }

  // ---------------------------------------------------------------- keys do not interfere

  function For(calls: seq<Call>, key: string): seq<Call> {
    if calls == [] then []
    else For(Front(calls), key) + if Last(calls).key == key then [Last(calls)] else []
  }

  /** A key's limiter, and every verdict on it, is what it would be if no other key were ever used. */
  lemma {:induction false} KeysDoNotInterfere(calls: seq<Call>, key: string)
    ensures key in State(calls) <==> key in State(For(calls, key))
    ensures key in State(calls) ==> State(calls)[key] == State(For(calls, key))[key]
    ensures calls != [] && Last(calls).key == key ==>
              For(calls, key) != [] && (LastAdmitted(calls) <==> LastAdmitted(For(calls, key)))
  {
    if calls != [] {
      KeysDoNotInterfere(Front(calls), key);
      if Last(calls).key == key {
        assert Front(For(calls, key)) == For(Front(calls), key);
      } else {
        assert For(calls, key) == For(Front(calls), key);
      }
    }
  }
}
