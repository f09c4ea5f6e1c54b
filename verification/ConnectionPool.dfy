/**
 The bounded pool of RPC connections. Getters check the count and add to it in two separate steps, so
 several of them can pass the check together; this models every interleaving and finds the true bound.
 */
module ConnectionPool {
  import opened Common

  /** This many connections that are running, and so many that are not. */
  datatype Conns = Conns(up: nat, down: nat) {
    function Total(): nat {
      up + down
    }

    predicate Has(isUp: bool) {
      if isUp then up > 0 else down > 0
    }

    function Plus(isUp: bool): Conns {
      if isUp then Conns(up + 1, down) else Conns(up, down + 1)
    }

    function Minus(isUp: bool): Conns
      requires Has(isUp)
    {
      if isUp then Conns(up - 1, down) else Conns(up, down - 1)
    }
  }

  const NO_CONNS := Conns(0, 0)

  /**
   Callers, and connections in the same place, differ at most in whether the connection is running, so they
   are counted by where they are. The channel keeps its order.
   */
  datatype State = State(
    maxSize: nat,
    getters: nat,       // how many callers may be inside Get at once
    created: int,
    idle: seq<bool>,    // the pool's channel: for each connection, whether it is running
    trying: nat,        // callers of Get about to look into the channel
    checking: nat,      // that found it empty
    connecting: nat,    // that found room and are dialling
    waiting: nat,       // that found no room
    inspected: Conns,   // that took a connection from the channel and have not looked at it
    doomed: nat,        // that found it dead and have not uncounted it
    connected: Conns,   // that dialled one and have not counted it
    lent: Conns,        // connections held by users
    putting: Conns,     // connections Put found running
    discarding: nat     // connections Put is about to uncount
  )

  datatype Where = AtIdle(i: nat) | AtInspected | AtConnected | AtLent | AtPutting

  datatype Action =
    | Enter | Take | TakeLate | Miss | Pass | Full | ConnectFails | Connects | Count(up: bool) | GiveUp
    | Inspect(up: bool) | Uncount | Die(place: Where)
    | PutLook(up: bool) | PutBack(up: bool) | PutFull(up: bool) | PutUncount

  function InGet(s: State): nat {
    s.trying + s.checking + s.connecting + s.waiting + s.inspected.Total() + s.doomed + s.connected.Total()
  }

  function Initial(maxSize: nat, getters: nat): State {
    State(maxSize, getters, 0, [], 0, 0, 0, 0, NO_CONNS, 0, NO_CONNS, NO_CONNS, NO_CONNS, 0)
  }

  predicate Enabled(s: State, a: Action) {
    match a
    case Enter => InGet(s) < s.getters
    case Take => s.trying > 0 && s.idle != []
    case TakeLate => s.waiting > 0 && s.idle != []
    case Miss => s.trying > 0 && s.idle == []
    case Pass => s.checking > 0 && s.created < s.maxSize
    case Full => s.checking > 0 && s.created >= s.maxSize
    case ConnectFails => s.connecting > 0
    case Connects => s.connecting > 0
    case Count(up) => s.connected.Has(up)
    case GiveUp => s.waiting > 0
    case Inspect(up) => s.inspected.Has(up)
    case Uncount => s.doomed > 0
    case Die(AtIdle(i)) => i < |s.idle| && s.idle[i]
    case Die(AtInspected) => s.inspected.up > 0
    case Die(AtConnected) => s.connected.up > 0
    case Die(AtLent) => s.lent.up > 0
    case Die(AtPutting) => s.putting.up > 0
    case PutLook(up) => s.lent.Has(up)
    case PutBack(up) => s.putting.Has(up) && |s.idle| < s.maxSize
    case PutFull(up) => s.putting.Has(up) && |s.idle| >= s.maxSize
    case PutUncount => s.discarding > 0
  }

  function Apply(s: State, a: Action): State
    requires Enabled(s, a)
  {
    match a
    case Enter => s.(trying := s.trying + 1)
    case Take => s.(trying := s.trying - 1, idle := s.idle[1..], inspected := s.inspected.Plus(s.idle[0]))
    case TakeLate => s.(waiting := s.waiting - 1, idle := s.idle[1..], inspected := s.inspected.Plus(s.idle[0]))
    case Miss => s.(trying := s.trying - 1, checking := s.checking + 1)
    case Pass => s.(checking := s.checking - 1, connecting := s.connecting + 1)
    case Full => s.(checking := s.checking - 1, waiting := s.waiting + 1)
    case ConnectFails => s.(connecting := s.connecting - 1)
    case Connects => s.(connecting := s.connecting - 1, connected := s.connected.Plus(true))
    case Count(up) => s.(connected := s.connected.Minus(up), created := s.created + 1, lent := s.lent.Plus(up))
    case GiveUp => s.(waiting := s.waiting - 1)
    case Inspect(up) =>
      if up then s.(inspected := s.inspected.Minus(up), lent := s.lent.Plus(up))
      else s.(inspected := s.inspected.Minus(up), doomed := s.doomed + 1)
    case Uncount => s.(doomed := s.doomed - 1, created := s.created - 1, trying := s.trying + 1)
    case Die(AtIdle(i)) => s.(idle := s.idle[i := false])
    case Die(AtInspected) => s.(inspected := s.inspected.Minus(true).Plus(false))
    case Die(AtConnected) => s.(connected := s.connected.Minus(true).Plus(false))
    case Die(AtLent) => s.(lent := s.lent.Minus(true).Plus(false))
    case Die(AtPutting) => s.(putting := s.putting.Minus(true).Plus(false))
    case PutLook(up) =>
      if up then s.(lent := s.lent.Minus(up), putting := s.putting.Plus(up))
      else s.(lent := s.lent.Minus(up), discarding := s.discarding + 1)
    case PutBack(up) => s.(putting := s.putting.Minus(up), idle := s.idle + [up])
    case PutFull(up) => s.(putting := s.putting.Minus(up), discarding := s.discarding + 1)
    case PutUncount => s.(discarding := s.discarding - 1, created := s.created - 1)
  }

  predicate Runs(s: State, acts: seq<Action>)
    decreases |acts|
  {
    acts == [] || (Enabled(s, acts[0]) && Runs(Apply(s, acts[0]), acts[1..]))
  }

  function Exec(s: State, acts: seq<Action>): State
    requires Runs(s, acts)
    decreases |acts|
  {
    if acts == [] then s else Exec(Apply(s, acts[0]), acts[1..])
  }

  // ---------------------------------------------------------------- what every step keeps

  /** The connections in use: lent out, or in the hands of a Get or a Put that has not given up on them. */
  function Held(s: State): nat {
    s.inspected.Total() + s.lent.Total() + s.putting.Total()
  }

  /** The connections found dead, or turned away, and about to be uncounted. */
  function BeingDiscarded(s: State): nat {
    s.doomed + s.discarding
  }

  predicate Accounted(s: State) {
    s.created == |s.idle| + Held(s) + BeingDiscarded(s)
  }

  predicate Bounded(s: State) {
    && InGet(s) <= s.getters && |s.idle| <= s.maxSize
    && s.created + s.connecting + s.connected.Total() <= s.maxSize - 1 + s.getters
  }

  predicate Inv(s: State) {
    Accounted(s) && Bounded(s)
  }

  lemma StepKeepsAccount(s: State, a: Action)
    requires Accounted(s) && Enabled(s, a)
    ensures Accounted(Apply(s, a))
  {
    hide InGet;
  }

  lemma StepKeepsBound(s: State, a: Action)
    requires Bounded(s) && Enabled(s, a)
    ensures Bounded(Apply(s, a)) && Apply(s, a).maxSize == s.maxSize && Apply(s, a).getters == s.getters
  {
  }

  lemma {:induction false} RunKeepsInv(s: State, acts: seq<Action>)
    requires Inv(s) && Runs(s, acts)
    ensures Inv(Exec(s, acts))
    ensures Exec(s, acts).maxSize == s.maxSize && Exec(s, acts).getters == s.getters
    decreases |acts|
  {
    hide Accounted, Bounded, Enabled, Apply;
    if acts != [] {
      StepKeepsAccount(s, acts[0]);
      StepKeepsBound(s, acts[0]);
      RunKeepsInv(Apply(s, acts[0]), acts[1..]);
    }
  }

  // ---------------------------------------------------------------- main results

  /**
   In every interleaving, `created` is the idle connections plus the held ones plus the dead ones on their
   way to being uncounted, and it never exceeds maxSize - 1 + N with N callers in Get. Put turns a
   connection away only when more than maxSize are counted.
   */
  lemma CreatedIsAccountedAndBounded(maxSize: nat, getters: nat, acts: seq<Action>)
    requires Runs(Initial(maxSize, getters), acts) && getters >= 1
    ensures var s := Exec(Initial(maxSize, getters), acts);
            && s.created == |s.idle| + Held(s) + BeingDiscarded(s)
            && s.created <= maxSize - 1 + getters
            && (forall up :: Enabled(s, PutFull(up)) ==> s.created > maxSize)
  {
    hide Runs, Exec, Enabled;
    RunKeepsInv(Initial(maxSize, getters), acts);
    FullPutMeansOverfilled(Exec(Initial(maxSize, getters), acts));
  }

  lemma FullPutMeansOverfilled(s: State)
    requires Accounted(s)
    ensures forall up :: Enabled(s, PutFull(up)) ==> s.created > s.maxSize
  {
  }

  /** With one caller in Get at a time the cap is exact, and Put takes every running connection back. */
  lemma OneGetterKeepsTheCap(maxSize: nat, acts: seq<Action>)
    requires Runs(Initial(maxSize, 1), acts)
    ensures var s := Exec(Initial(maxSize, 1), acts);
            && s.created <= maxSize
            && (forall up :: s.putting.Has(up) ==> Enabled(s, PutBack(up)) && !Enabled(s, PutFull(up)))
  {
    RunKeepsInv(Initial(maxSize, 1), acts);
    RoomUnderTheCap(Exec(Initial(maxSize, 1), acts));
    hide Runs, Exec, Enabled;
  }

  lemma RoomUnderTheCap(s: State)
    requires Accounted(s) && s.created <= s.maxSize
    ensures forall up :: s.putting.Has(up) ==> Enabled(s, PutBack(up)) && !Enabled(s, PutFull(up))
  {
  }

  // ---------------------------------------------------------------- the bound is reached

  /** c connections made and lent out, and j callers dialling. */
  function Busy(maxSize: nat, getters: nat, c: nat, j: nat): State {
    Initial(maxSize, getters).(created := c, lent := Conns(c, 0), connecting := j)
  }

  lemma {:induction false} RunsJoin(s: State, xs: seq<Action>, ys: seq<Action>)
    requires Runs(s, xs) && Runs(Exec(s, xs), ys)
    ensures Runs(s, xs + ys) && Exec(s, xs + ys) == Exec(Exec(s, xs), ys)
    decreases |xs|
  {
    if xs == [] {
      assert xs + ys == ys;
    } else {
      RunsJoin(Apply(s, xs[0]), xs[1..], ys);
      assert (xs + ys)[1..] == xs[1..] + ys;
    }
  }

  /** One more caller passes the check. */
  lemma OnePasses(maxSize: nat, getters: nat, c: nat, j: nat)
    requires c < maxSize && j < getters
    ensures Runs(Busy(maxSize, getters, c, j), [Enter, Miss, Pass])
    ensures Exec(Busy(maxSize, getters, c, j), [Enter, Miss, Pass]) == Busy(maxSize, getters, c, j + 1)
  {
    var s := Busy(maxSize, getters, c, j);
    var s1 := Apply(s, Enter);
    var s2 := Apply(s1, Miss);
    assert Exec(s2, [Pass]) == Apply(s2, Pass);
    assert [Enter, Miss, Pass][1..] == [Miss, Pass] && [Miss, Pass][1..] == [Pass];
    assert Runs(s1, [Miss, Pass]) && Exec(s1, [Miss, Pass]) == Exec(s2, [Pass]);
  }

  /** One dialling caller gets its connection and counts it. */
  lemma OneLands(maxSize: nat, getters: nat, c: nat, j: nat)
    requires j > 0
    ensures Runs(Busy(maxSize, getters, c, j), [Connects, Count(true)])
    ensures Exec(Busy(maxSize, getters, c, j), [Connects, Count(true)]) == Busy(maxSize, getters, c + 1, j - 1)
  {
    var s1 := Apply(Busy(maxSize, getters, c, j), Connects);
    assert [Connects, Count(true)][1..] == [Count(true)];
    assert Exec(s1, [Count(true)]) == Apply(s1, Count(true));
  }

  /** The way from nothing to c connections lent out and j callers dialling. */
  lemma {:induction false} BusyIsReached(maxSize: nat, getters: nat, c: nat, j: nat) returns (acts: seq<Action>)
    requires maxSize >= 1 && getters >= 1 && j <= getters && c + j <= maxSize - 1 + getters
    ensures Runs(Initial(maxSize, getters), acts) && Exec(Initial(maxSize, getters), acts) == Busy(maxSize, getters, c, j)
    decreases c, j
  {
    hide Runs, Exec, Enabled, Apply;
    var init := Initial(maxSize, getters);
    if c < maxSize && j > 0 {
      var before := BusyIsReached(maxSize, getters, c, j - 1);
      OnePasses(maxSize, getters, c, j - 1);
      RunsJoin(init, before, [Enter, Miss, Pass]);
      acts := before + [Enter, Miss, Pass];
    } else if c > 0 {
      var before := BusyIsReached(maxSize, getters, c - 1, j + 1);
      OneLands(maxSize, getters, c - 1, j + 1);
      RunsJoin(init, before, [Connects, Count(true)]);
      acts := before + [Connects, Count(true)];
    } else {
      acts := [];
      EmptyRun(init);
    }
  }

  lemma EmptyRun(s: State)
    ensures Runs(s, []) && Exec(s, []) == s
  {
  }

  /** For every size and every number of callers, some interleaving has created == maxSize - 1 + N. */
  lemma BoundIsReached(maxSize: nat, getters: nat)
    requires maxSize >= 1 && getters >= 1
    ensures exists acts :: Runs(Initial(maxSize, getters), acts)
              && Exec(Initial(maxSize, getters), acts).created == maxSize - 1 + getters
  {
    var acts := BusyIsReached(maxSize, getters, maxSize - 1 + getters, 0);
  }

  // ---------------------------------------------------------------- the pool's own fields

  class PooledClient {
    var running: bool

    constructor ()
      ensures running
    {
      running := true;
    }

    method Disconnect()
      modifies this
      ensures !running
    {
      running := false;
    }
  }

  /** Which of the clients run. */
  ghost function Ups(clients: seq<PooledClient>): (up: seq<bool>)
    reads clients
    ensures |up| == |clients| && forall i :: 0 <= i < |clients| ==> up[i] == clients[i].running
  {
    seq(|clients|, i requires 0 <= i < |clients| reads clients => clients[i].running)
  }

  /** Where a Get takes its client from: the channel, a client put back while it waits, a new one, nowhere. */
  datatype Source = Idle | Late | New | Nowhere

  /** It first throws away `dead` clients from the channel and `deadLate` that are put back while it waits. */
  datatype Plan = Plan(dead: nat, deadLate: nat, source: Source)

  function PlanFor(up: seq<bool>, lateUp: seq<bool>, created: int, maxSize: nat, dials: bool): Plan
    decreases |up| + |lateUp|
  {
    if up != [] then
      if up[0] then Plan(0, 0, Idle)
      else
        var plan := PlanFor(up[1..], lateUp, created - 1, maxSize, dials);
        plan.(dead := plan.dead + 1)
    else if created < maxSize then Plan(0, 0, if dials then New else Nowhere)
    else if lateUp == [] then Plan(0, 0, Nowhere)
    else if lateUp[0] then Plan(0, 0, Late)
    else
      var plan := PlanFor(up, lateUp[1..], created - 1, maxSize, dials);
      plan.(deadLate := plan.deadLate + 1)
  }

  lemma PlanWhenEmpty(lateUp: seq<bool>, created: int, maxSize: nat, dials: bool)
    ensures PlanFor([], lateUp, created, maxSize, dials)
            == if created < maxSize then Plan(0, 0, if dials then New else Nowhere)
               else if lateUp == [] then Plan(0, 0, Nowhere)
               else if lateUp[0] then Plan(0, 0, Late)
               else var plan := PlanFor([], lateUp[1..], created - 1, maxSize, dials);
                    plan.(deadLate := plan.deadLate + 1)
  {
  }

  lemma PlanWithIdle(up: seq<bool>, lateUp: seq<bool>, created: int, maxSize: nat, dials: bool)
    ensures up != [] && up[0] ==> PlanFor(up, lateUp, created, maxSize, dials) == Plan(0, 0, Idle)
    ensures up != [] && !up[0] ==>
              PlanFor(up, lateUp, created, maxSize, dials)
              == var plan := PlanFor(up[1..], lateUp, created - 1, maxSize, dials);
                 plan.(dead := plan.dead + 1)
  {
  }

  /** The first index that is true, or the length. */
  function FirstUp(up: seq<bool>): (k: nat)
    ensures k <= |up| && (k < |up| ==> up[k])
    ensures forall i :: 0 <= i < k ==> !up[i]
  {
    if up == [] || up[0] then 0 else 1 + FirstUp(up[1..])
  }

  /**
   A Get throws away the dead clients before the first live one in the channel and takes that. If none lives, it
   throws away those put back dead until one is alive, the count falls below the maximum, or no more come in
   time; then it takes the live one, dials a new one, or gives up.
   */
  lemma {:induction false} PlanIs(up: seq<bool>, lateUp: seq<bool>, created: int, maxSize: nat, dials: bool)
    ensures var plan, k := PlanFor(up, lateUp, created, maxSize, dials), FirstUp(up);
            var waits := Min(FirstUp(lateUp), Max(0, created - k - maxSize + 1));
            && plan.dead == k
            && (k < |up| ==> plan.source == Idle && plan.deadLate == 0)
            && (k == |up| ==>
                  && plan.deadLate == waits
                  && plan.source == if created - k - waits < maxSize then (if dials then New else Nowhere)
                                    else if waits < |lateUp| then Late else Nowhere)
    decreases |up| + |lateUp|
  {
    if up != [] {
      if !up[0] {
        PlanIs(up[1..], lateUp, created - 1, maxSize, dials);
      }
    } else if created >= maxSize && lateUp != [] && !lateUp[0] {
      PlanIs(up, lateUp[1..], created - 1, maxSize, dials);
    }
  }

  /** The pool's fields, as values. */
  datatype Fields = Fields(pool: seq<PooledClient>, created: int, lent: set<PooledClient>)

  ghost function Members(clients: seq<PooledClient>): set<PooledClient> {
    set c | c in clients
  }

  /** What a plan does to the fields, and what the caller gets. */
  ghost predicate Follows(plan: Plan, late: seq<PooledClient>, before: Fields, after: Fields, client: Option<PooledClient>) {
    && plan.dead + (if plan.source == Idle then 1 else 0) <= |before.pool|
    && plan.deadLate + (if plan.source == Late then 1 else 0) <= |late|
    && after.pool == before.pool[plan.dead + (if plan.source == Idle then 1 else 0)..]
    && after.created == before.created - plan.dead - plan.deadLate + (if plan.source == New then 1 else 0)
    && (client.Some? <==> plan.source != Nowhere)
    && (plan.source == Idle ==> client == Some(before.pool[plan.dead]))
    && (plan.source == Late ==> client == Some(late[plan.deadLate]))
    && after.lent == before.lent - Members(late[..plan.deadLate]) + (if client.Some? then {client.value} else {})
  }

  lemma DropsOneMore(plan: Plan, late: seq<PooledClient>, before: Fields, after: Fields, client: Option<PooledClient>)
    requires before.pool != []
    requires Follows(plan, late, before.(pool := before.pool[1..], created := before.created - 1), after, client)
    ensures Follows(plan.(dead := plan.dead + 1), late, before, after, client)
  {
  }

  lemma LosesOneMore(plan: Plan, late: seq<PooledClient>, before: Fields, after: Fields, client: Option<PooledClient>)
    requires late != []
    requires Follows(plan, late[1..], before.(created := before.created - 1, lent := before.lent - {late[0]}), after, client)
    ensures Follows(plan.(deadLate := plan.deadLate + 1), late, before, after, client)
  {
    assert late[..plan.deadLate + 1] == [late[0]] + late[1..][..plan.deadLate];
    assert Members(late[..plan.deadLate + 1]) == {late[0]} + Members(late[1..][..plan.deadLate]);
  }

  lemma GivesUp(late: seq<PooledClient>, fields: Fields)
    ensures Follows(Plan(0, 0, Nowhere), late, fields, fields, None)
  {
  }

  lemma TakesLate(late: seq<PooledClient>, fields: Fields)
    requires late != [] && late[0] in fields.lent
    ensures Follows(Plan(0, 0, Late), late, fields, fields, Some(late[0]))
  {
  }

  /** Different clients, all of them lent. */
  ghost predicate AreLent(clients: seq<PooledClient>, lent: set<PooledClient>) {
    && (forall i :: 0 <= i < |clients| ==> clients[i] in lent)
    && (forall i, j :: 0 <= i < j < |clients| ==> clients[i] != clients[j])
  }

  lemma OthersAreLent(clients: seq<PooledClient>, lent: set<PooledClient>)
    requires clients != [] && AreLent(clients, lent)
    ensures clients[0] in lent && AreLent(clients[1..], lent - {clients[0]})
  {
  }

  class RPCConnectionPool {
    const maxSize: nat
    var pool: seq<PooledClient>
    var created: int
    ghost var lent: set<PooledClient>

    ghost predicate Valid()
      reads this
    {
      && |pool| <= maxSize
      && (forall i, j :: 0 <= i < j < |pool| ==> pool[i] != pool[j])
      && (forall i :: 0 <= i < |pool| ==> pool[i] !in lent)
      && created == |pool| + |lent|
    }

    ghost function View(): Fields
      reads this
    {
      Fields(pool, created, lent)
    }

    constructor (maxSize: nat)
      ensures Valid() && this.maxSize == maxSize && created == 0 && pool == [] && lent == {}
    {
      this.maxSize := maxSize;
      pool, created, lent := [], 0, {};
    }

    /**
     Get looks at the head of the channel; a dead client is uncounted, and Get starts over. `late` are the
     clients that their holders, finding them live, put back while this call waits on an empty channel.
     */
    method Get(dials: bool, late: seq<PooledClient>) returns (client: Option<PooledClient>)
      requires Valid() && AreLent(late, lent)
      modifies this
      ensures Valid() && (old(created) <= maxSize ==> created <= maxSize)
      ensures var plan := PlanFor(old(Ups(pool)), old(Ups(late)), old(created), maxSize, dials);
              && Follows(plan, late, old(View()), View(), client)
              && (plan.source == New ==> client.Some? && fresh(client.value) && client.value.running)
      decreases |pool| + |late|, 1
    {
      hide Valid, Follows, AreLent, PlanFor, Ups, Members;
      PlanWithIdle(Ups(pool), Ups(late), created, maxSize, dials);
      if pool == [] {
        client := DialOrWait(dials, late);
        return;
      }
      var c := pool[0];
      if c.running {
        Lend();
        return Some(c);
      }
      client := SkipDead(dials, late);
    }

    /** The dead client at the head of the channel is uncounted, and Get starts over. */
    method SkipDead(dials: bool, late: seq<PooledClient>) returns (client: Option<PooledClient>)
      requires Valid() && pool != [] && AreLent(late, lent)
      modifies this
      ensures Valid() && (old(created) <= maxSize ==> created <= maxSize)
      ensures var plan := PlanFor(old(Ups(pool))[1..], old(Ups(late)), old(created) - 1, maxSize, dials);
              && Follows(plan.(dead := plan.dead + 1), late, old(View()), View(), client)
              && (plan.source == New ==> client.Some? && fresh(client.value) && client.value.running)
      decreases |pool| + |late| - 1, 2
    {
      hide Valid, AreLent, Follows, PlanFor, Ups, Members;
      ghost var before, up, lateUp := View(), Ups(pool), Ups(late);
      Drop();
      assert Ups(pool) == up[1..] && Ups(late) == lateUp;
      client := Get(dials, late);
      DropsOneMore(PlanFor(up[1..], lateUp, before.created - 1, maxSize, dials), late, before, View(), client);
    }

    /** The client at the head of the channel is lent. */
    method Lend()
      requires Valid() && pool != []
      modifies this`pool, this`lent
      ensures Valid() && forall late :: Follows(Plan(0, 0, Idle), late, old(View()), View(), Some(old(pool)[0]))
    {
      lent := lent + {pool[0]};
      pool := pool[1..];
    }

    method Drop()
      requires Valid() && pool != []
      modifies this`pool, this`created
      ensures Valid() && View() == old(View()).(pool := old(pool)[1..], created := old(created) - 1)
    {
      pool := pool[1..];
      created := created - 1;
    }

    /** What Get does when the channel is empty. */
    method DialOrWait(dials: bool, late: seq<PooledClient>) returns (client: Option<PooledClient>)
      requires Valid() && pool == [] && AreLent(late, lent)
      modifies this
      ensures Valid() && (old(created) <= maxSize ==> created <= maxSize)
      ensures var plan := PlanFor([], old(Ups(late)), old(created), maxSize, dials);
              && Follows(plan, late, old(View()), View(), client)
              && (plan.source == New ==> client.Some? && fresh(client.value) && client.value.running)
      decreases |pool| + |late|, 0
    {
      hide Valid, AreLent, Follows, PlanFor, Ups, Members;
      PlanWhenEmpty(Ups(late), created, maxSize, dials);
      if created < maxSize {
        client := Dial(dials, late);
        return;
      }
      if late == [] {
        GivesUp(late, View());
        return None;
      }
      OthersAreLent(late, lent);
      if late[0].running {
        TakesLate(late, View());
        return Some(late[0]);
      }
      client := StartOver(dials, late);
    }

    /** A client that was put back has died: it is uncounted, and Get starts over. */
    method StartOver(dials: bool, late: seq<PooledClient>) returns (client: Option<PooledClient>)
      requires Valid() && pool == [] && late != [] && late[0] in lent && AreLent(late[1..], lent - {late[0]})
      modifies this
      ensures Valid() && (old(created) <= maxSize ==> created <= maxSize)
      ensures var plan := PlanFor([], old(Ups(late))[1..], old(created) - 1, maxSize, dials);
              && Follows(plan.(deadLate := plan.deadLate + 1), late, old(View()), View(), client)
              && (plan.source == New ==> client.Some? && fresh(client.value) && client.value.running)
      decreases |pool| + |late| - 1, 2
    {
      hide Valid, AreLent, Follows, PlanFor, Ups, Members;
      ghost var before, lateUp := View(), Ups(late);
      Lose(late[0]);
      assert Ups(late[1..]) == lateUp[1..] && Ups(pool) == [];
      client := Get(dials, late[1..]);
      LosesOneMore(PlanFor([], lateUp[1..], before.created - 1, maxSize, dials), late, before, View(), client);
    }

    method Dial(dials: bool, ghost late: seq<PooledClient>) returns (client: Option<PooledClient>)
      requires Valid() && created < maxSize
      modifies this`created, this`lent
      ensures Valid() && created <= maxSize
      ensures Follows(Plan(0, 0, if dials then New else Nowhere), late, old(View()), View(), client)
      ensures dials ==> client.Some? && fresh(client.value) && client.value.running
    {
      if !dials {
        return None;
      }
      var c := new PooledClient();
      created := created + 1;
      lent := lent + {c};
      return Some(c);
    }

    /** A client that was put back and has died is uncounted. */
    method Lose(c: PooledClient)
      requires Valid() && c in lent
      modifies this`created, this`lent
      ensures Valid() && View() == old(View()).(created := old(created) - 1, lent := old(lent) - {c})
    {
      assert lent == (lent - {c}) + {c};
      lent := lent - {c};
      created := created - 1;
    }

    /** Put of a lent client: kept if it runs and there is room, which there is as long as the cap was kept. */
    method Put(client: PooledClient)
      requires Valid() && client in lent
      modifies this, client
      ensures Valid() && lent == old(lent) - {client}
      ensures if !old(client.running) then pool == old(pool) && created == old(created) - 1
              else if |old(pool)| < maxSize then pool == old(pool) + [client] && created == old(created) && client.running
              else pool == old(pool) && created == old(created) - 1 && !client.running
      ensures old(created) <= maxSize && old(client.running) ==> pool == old(pool) + [client] && client.running
    {
      assert lent == (lent - {client}) + {client};
      lent := lent - {client};
      if !client.running {
        created := created - 1;
        return;
      }
      if |pool| < maxSize {
        pool := pool + [client];
      } else {
        client.Disconnect();
        created := created - 1;
      }
    }
  }
}
