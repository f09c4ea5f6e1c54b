/**
 The pool's books: in every interleaving, running connections come only from dialling and go only by dying or by
 being turned away from a full pool, and what is uncounted was found dead or turned away.
 */
module PoolLedger {
  import opened Common
  import opened ConnectionPool

  /** What the books count of a run. */
  datatype Entry =
    | Came | Dialled | Added | Got | Failed | Taken | Died | FoundDead | ReturnedDead | Accepted | Kept | TurnedAway(up: bool)
    | Uncounted

  predicate IsOf(entry: Entry, a: Action) {
    match entry
    case Came => a == Enter
    case Dialled => a == Connects
    case Got => a.Count? || a == Inspect(true)
    case Failed => a == ConnectFails || a == GiveUp
    case Taken => a == Take || a == TakeLate
    case Died => a.Die?
    case FoundDead => a == Inspect(false)
    case ReturnedDead => a == PutLook(false)
    case Accepted => a == PutLook(true)
    case Kept => a.PutBack?
    case TurnedAway(up) => a == PutFull(up)
    case Added => a.Count?
    case Uncounted => a == ConnectionPool.Uncount || a == PutUncount
  }

  function Times(entry: Entry, acts: seq<Action>): nat {
    if acts == [] then 0 else Times(entry, acts[1..]) + if IsOf(entry, acts[0]) then 1 else 0
  }

  lemma {:induction false} TimesIsNone(entry: Entry, acts: seq<Action>)
    ensures Times(entry, acts) == 0 <==> forall a :: a in acts ==> !IsOf(entry, a)
  {
    if acts != [] {
      TimesIsNone(entry, acts[1..]);
      assert forall a :: a in acts <==> a == acts[0] || a in acts[1..];
    }
  }

  /** How many of the connections in the channel run, and how many do not. */
  function Split(idle: seq<bool>): Conns {
    if idle == [] then NO_CONNS else Split(idle[1..]).Plus(idle[0])
  }

  lemma {:induction false} SplitIsAll(idle: seq<bool>)
    ensures Split(idle).Total() == |idle|
  {
    if idle != [] {
      SplitIsAll(idle[1..]);
    }
  }

  lemma {:induction false} SplitGrows(idle: seq<bool>, up: bool)
    ensures Split(idle + [up]) == Split(idle).Plus(up)
  {
    if idle != [] {
      SplitGrows(idle[1..], up);
      assert (idle + [up])[1..] == idle[1..] + [up];
    }
  }

  lemma {:induction false} SplitChanges(idle: seq<bool>, i: nat)
    requires i < |idle| && idle[i]
    ensures Split(idle).Has(true) && Split(idle[i := false]) == Split(idle).Minus(true).Plus(false)
  {
    if i > 0 {
      SplitChanges(idle[1..], i - 1);
      assert idle[i := false][1..] == idle[1..][i - 1 := false];
    } else {
      assert idle[i := false][1..] == idle[1..];
    }
  }

  /** The connections anywhere in the pool's hands or its users' that run, and those that do not. */
  function RunningIn(s: State): int {
    Split(s.idle).up + s.inspected.up + s.connected.up + s.lent.up + s.putting.up
  }

  function DeadIn(s: State): int {
    Split(s.idle).down + s.inspected.down + s.connected.down + s.lent.down + s.putting.down
  }

  /** What the books keep an eye on. */
  datatype Gauge = Running | Dead | Discarded | Created | Idle | Lent | BeingPut | Callers

  function Reading(gauge: Gauge, s: State): int {
    match gauge
    case Running => RunningIn(s)
    case Dead => DeadIn(s)
    case Discarded => BeingDiscarded(s)
    case Created => s.created
    case Idle => |s.idle|
    case Lent => s.lent.Total()
    case BeingPut => s.putting.Total()
    case Callers => InGet(s)
  }

  /**
   What a run adds to each. Running connections come from dialling, and go by dying or by being turned away; dead
   ones come from those, and go when Get or Put finds them dead, or are turned away; what is discarded was found
   dead or turned away, until it is uncounted. Get lends what it has counted or has found running; Put keeps or
   turns away what it has found running; and callers leave Get with a connection or with an error.
   */
  function Due(gauge: Gauge, acts: seq<Action>): int {
    match gauge
    case Running => Times(Dialled, acts) - Times(Died, acts) - Times(TurnedAway(true), acts)
    case Dead => Times(Died, acts) - Times(FoundDead, acts) - Times(ReturnedDead, acts) - Times(TurnedAway(false), acts)
    case Discarded =>
      Times(FoundDead, acts) + Times(ReturnedDead, acts) + Times(TurnedAway(true), acts) + Times(TurnedAway(false), acts)
      - Times(Uncounted, acts)
    case Created => Times(Added, acts) - Times(Uncounted, acts)
    case Idle => Times(Kept, acts) - Times(Taken, acts)
    case Lent => Times(Got, acts) - Times(Accepted, acts) - Times(ReturnedDead, acts)
    case BeingPut =>
      Times(Accepted, acts) - Times(Kept, acts) - Times(TurnedAway(true), acts) - Times(TurnedAway(false), acts)
    case Callers => Times(Came, acts) - Times(Got, acts) - Times(Failed, acts)
  }

  lemma DueSplits(gauge: Gauge, acts: seq<Action>)
    requires acts != []
    ensures Due(gauge, acts) == Due(gauge, [acts[0]]) + Due(gauge, acts[1..])
  {
    hide IsOf;
    forall entry: Entry ensures Times(entry, acts) == Times(entry, [acts[0]]) + Times(entry, acts[1..]) {
      assert [acts[0]][1..] == [] && Times(entry, []) == 0;
    }
  }

  lemma StepDue(gauge: Gauge, s: State, a: Action)
    requires Enabled(s, a)
    ensures Reading(gauge, Apply(s, a)) == Reading(gauge, s) + Due(gauge, [a])
  {
    forall entry: Entry ensures Times(entry, [a]) == One(entry, a) {
      assert [a][1..] == [] && Times(entry, []) == 0;
    }
    hide One, Enabled, Apply, Times, RunningIn, DeadIn, InGet, BeingDiscarded;
    StepOfRunning(s, a);
    StepOfDead(s, a);
    StepOfDiscarded(s, a);
    StepOfIdle(s, a);
    StepOfLent(s, a);
    StepOfPutting(s, a);
    StepOfCallers(s, a);
  }

  function One(entry: Entry, a: Action): nat {
    if IsOf(entry, a) then 1 else 0
  }

  lemma StepOfRunning(s: State, a: Action)
    requires Enabled(s, a)
    ensures RunningIn(Apply(s, a)) == RunningIn(s) + One(Dialled, a) - One(Died, a) - One(TurnedAway(true), a)
  {
    IdleSplits(s, a);
    hide Split, InGet;
  }

  lemma StepOfDead(s: State, a: Action)
    requires Enabled(s, a)
    ensures DeadIn(Apply(s, a))
            == DeadIn(s) + One(Died, a) - One(FoundDead, a) - One(ReturnedDead, a) - One(TurnedAway(false), a)
  {
    IdleSplits(s, a);
    hide Split, InGet;
  }

  lemma StepOfDiscarded(s: State, a: Action)
    requires Enabled(s, a)
    ensures BeingDiscarded(Apply(s, a)) == BeingDiscarded(s) + One(FoundDead, a) + One(ReturnedDead, a)
                                           + One(TurnedAway(true), a) + One(TurnedAway(false), a) - One(Uncounted, a)
    ensures Apply(s, a).created == s.created + One(Added, a) - One(Uncounted, a)
  {
    hide InGet;
  }

  lemma StepOfIdle(s: State, a: Action)
    requires Enabled(s, a)
    ensures |Apply(s, a).idle| == |s.idle| + One(Kept, a) - One(Taken, a)
  {
    hide InGet;
  }

  lemma StepOfLent(s: State, a: Action)
    requires Enabled(s, a)
    ensures Apply(s, a).lent.Total() == s.lent.Total() + One(Got, a) - One(Accepted, a) - One(ReturnedDead, a)
  {
    hide InGet;
  }

  lemma StepOfPutting(s: State, a: Action)
    requires Enabled(s, a)
    ensures Apply(s, a).putting.Total()
            == s.putting.Total() + One(Accepted, a) - One(Kept, a) - One(TurnedAway(true), a) - One(TurnedAway(false), a)
  {
    hide InGet;
  }

  lemma StepOfCallers(s: State, a: Action)
    requires Enabled(s, a)
    ensures InGet(Apply(s, a)) == InGet(s) + One(Came, a) - One(Got, a) - One(Failed, a)
  {
  }

  /** What a step does to the channel. */
  lemma IdleSplits(s: State, a: Action)
    requires Enabled(s, a)
    ensures var was, now := Split(s.idle), Split(Apply(s, a).idle);
            if a == Take || a == TakeLate then was == now.Plus(s.idle[0])
            else if a.PutBack? then now == was.Plus(a.up)
            else if a.Die? && a.place.AtIdle? then was.Has(true) && now == was.Minus(true).Plus(false)
            else now == was
  {
    hide Split;
    if a == Take || a == TakeLate {
      FirstOfIdle(s.idle);
    } else if a.PutBack? {
      SplitGrows(s.idle, a.up);
    } else if a.Die? && a.place.AtIdle? {
      SplitChanges(s.idle, a.place.i);
    }
  }

  lemma FirstOfIdle(idle: seq<bool>)
    requires idle != []
    ensures Split(idle) == Split(idle[1..]).Plus(idle[0])
  {
  }

  lemma {:induction false} RunDue(gauge: Gauge, s: State, acts: seq<Action>)
    requires Runs(s, acts)
    ensures Reading(gauge, Exec(s, acts)) == Reading(gauge, s) + Due(gauge, acts)
    decreases |acts|
  {
    if acts != [] {
      StepDue(gauge, s, acts[0]);
      DueSplits(gauge, acts);
      hide Enabled, Apply, Reading, Due;
      RunDue(gauge, Apply(s, acts[0]), acts[1..]);
    } else {
      hide Reading;
    }
  }

  // ---------------------------------------------------------------- main results

  /**
   The books balance in every interleaving, for any number of callers: what is running, dead, discarded, counted,
   idle, lent, being put back, and in Get is what the run's steps make of it.
   */
  lemma BooksBalance(maxSize: nat, getters: nat, acts: seq<Action>, gauge: Gauge)
    requires Runs(Initial(maxSize, getters), acts)
    ensures Reading(gauge, Exec(Initial(maxSize, getters), acts)) == Due(gauge, acts)
  {
    RunDue(gauge, Initial(maxSize, getters), acts);
  }

  /**
   While no connection dies, none is ever dead anywhere or found so, in any interleaving of any number of callers;
   with one caller in Get at a time, none is discarded either: every connection counted stays counted, and Put
   keeps all it is given.
   */
  lemma NothingIsLostWithoutDeath(maxSize: nat, getters: nat, acts: seq<Action>)
    requires Runs(Initial(maxSize, getters), acts) && getters >= 1 && forall a :: a in acts ==> !a.Die?
    ensures var s := Exec(Initial(maxSize, getters), acts);
            && DeadIn(s) == 0 && Inspect(false) !in acts && PutLook(false) !in acts
            && (getters == 1 ==> BeingDiscarded(s) == 0 && s.created == Times(Added, acts)
                                 && Uncount !in acts && PutUncount !in acts)
  {
    NothingFoundDead(maxSize, getters, acts);
    if getters == 1 {
      NothingDiscarded(maxSize, acts);
    }
  }

  lemma NothingFoundDead(maxSize: nat, getters: nat, acts: seq<Action>)
    requires Runs(Initial(maxSize, getters), acts) && forall a :: a in acts ==> !a.Die?
    ensures DeadIn(Exec(Initial(maxSize, getters), acts)) == 0
    ensures Times(FoundDead, acts) == 0 && Inspect(false) !in acts
    ensures Times(ReturnedDead, acts) == 0 && PutLook(false) !in acts
  {
    BooksBalance(maxSize, getters, acts, Dead);
    NoneDied(acts);
    hide Runs, Exec, Times, Split, IsOf;
    NotAmong(FoundDead, acts, Inspect(false));
    NotAmong(ReturnedDead, acts, PutLook(false));
  }

  lemma NothingDiscarded(maxSize: nat, acts: seq<Action>)
    requires Runs(Initial(maxSize, 1), acts) && Times(FoundDead, acts) == 0 && Times(ReturnedDead, acts) == 0
    ensures var s := Exec(Initial(maxSize, 1), acts);
            BeingDiscarded(s) == 0 && s.created == Times(Added, acts)
    ensures Uncount !in acts && PutUncount !in acts
  {
    NeverFull(Initial(maxSize, 1), acts);
    BooksBalance(maxSize, 1, acts, Discarded);
    BooksBalance(maxSize, 1, acts, Created);
    hide Runs, Exec, Times, IsOf;
    NotAmong(Uncounted, acts, Uncount);
    NotAmong(Uncounted, acts, PutUncount);
  }

  lemma NoneDied(acts: seq<Action>)
    requires forall a :: a in acts ==> !a.Die?
    ensures Times(Died, acts) == 0
  {
    TimesIsNone(Died, acts);
  }

  lemma NotAmong(entry: Entry, acts: seq<Action>, a: Action)
    requires IsOf(entry, a)
    ensures Times(entry, acts) == 0 ==> a !in acts
  {
    TimesIsNone(entry, acts);
  }

  /** With one caller in Get at a time no Put ever finds the channel full. */
  lemma {:induction false} NeverFull(s: State, acts: seq<Action>)
    requires Inv(s) && s.getters == 1 && Runs(s, acts)
    ensures Times(TurnedAway(true), acts) == 0 && Times(TurnedAway(false), acts) == 0
    decreases |acts|
  {
    if acts != [] {
      StepKeepsAccount(s, acts[0]);
      StepKeepsBound(s, acts[0]);
      FullPutMeansOverfilled(s);
      NeverFull(Apply(s, acts[0]), acts[1..]);
    }
  }
}
