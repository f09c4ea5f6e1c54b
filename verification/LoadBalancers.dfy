/** Choosing a service from a list: in turn, or by the lowest load. */
module LoadBalancers {
  import opened Common
  import opened Rotation

  datatype Service = Service(id: string, nodeType: string, status: string, load: int)

  // ---------------------------------------------------------------- in turn

  function Count(counters: map<string, nat>, nodeType: string): nat {
    if nodeType in counters then counters[nodeType] else 0
  }

  /** The position a call chooses. The list's first service names the counter that is used. */
  function Position(counters: map<string, nat>, services: seq<Service>): Option<nat> {
    if services == [] then None else Some(Count(counters, services[0].nodeType) % |services|)
  }

  function Advance(counters: map<string, nat>, services: seq<Service>): map<string, nat> {
    if services == [] then counters
    else counters[services[0].nodeType := Count(counters, services[0].nodeType) + 1]
  }

  class RoundRobinLoadBalancer {
    var counters: map<string, nat>

    constructor ()
      ensures counters == map[]
    {
      counters := map[];
    }

    /** Returns the position of the chosen service in the list. */
    method Select(services: seq<Service>) returns (selected: Option<nat>)
      modifies this
      ensures selected == Position(old(counters), services) && counters == Advance(old(counters), services)
      ensures selected.Some? <==> services != []
      ensures selected.Some? ==> selected.value < |services|
    {
      if |services| == 0 { return None; }
      var nodeType := services[0].nodeType;
      var counter := if nodeType in counters then counters[nodeType] else 0;
      selected := Some(counter % |services|);
      counters := counters[nodeType := counter + 1];
    }
  }

  /** The counters after a sequence of calls, each with its own list. */
  function After(counters: map<string, nat>, calls: seq<seq<Service>>): map<string, nat> {
    if calls == [] then counters else Advance(After(counters, calls[..|calls| - 1]), calls[|calls| - 1])
  }

  predicate IsFor(services: seq<Service>, nodeType: string) {
    services != [] && services[0].nodeType == nodeType
  }

  /** How many calls are for a node type. */
  function CallsFor(calls: seq<seq<Service>>, nodeType: string): nat {
    if calls == [] then 0
    else CallsFor(calls[..|calls| - 1], nodeType) + if IsFor(calls[|calls| - 1], nodeType) then 1 else 0
  }

  /** How many of them choose position p. */
  function Hits(counters: map<string, nat>, calls: seq<seq<Service>>, nodeType: string, p: nat): nat {
    if calls == [] then 0
    else
      var before, last := calls[..|calls| - 1], calls[|calls| - 1];
      Hits(counters, before, nodeType, p)
      + if IsFor(last, nodeType) && Position(After(counters, before), last) == Some(p) then 1 else 0
  }

  /** Every list for the node type has n services; lists for other types are as they please. */
  predicate Steady(calls: seq<seq<Service>>, nodeType: string, n: nat) {
    forall i :: 0 <= i < |calls| && IsFor(calls[i], nodeType) ==> |calls[i]| == n
  }

  lemma {:induction false} CounterCounts(counters: map<string, nat>, calls: seq<seq<Service>>, nodeType: string)
    ensures Count(After(counters, calls), nodeType) == Count(counters, nodeType) + CallsFor(calls, nodeType)
  {
    if calls != [] {
      CounterCounts(counters, calls[..|calls| - 1], nodeType);
    }
  }

  lemma {:induction false} HitsAreTurns(counters: map<string, nat>, calls: seq<seq<Service>>, nodeType: string, n: nat, p: nat)
    requires n > 0 && Steady(calls, nodeType, n)
    ensures var c := Count(counters, nodeType);
            Hits(counters, calls, nodeType, p) == Turns(c + CallsFor(calls, nodeType), n, p) - Turns(c, n, p)
  {
    if calls != [] {
      HitsAreTurns(counters, calls[..|calls| - 1], nodeType, n, p);
      CounterCounts(counters, calls[..|calls| - 1], nodeType);
    }
  }

  /**
   Over any run of calls, from any counters and with any calls for other node types in between, two positions
   of a list of fixed length are chosen equally often, give or take one.
   */
  lemma SelectionIsFair(counters: map<string, nat>, calls: seq<seq<Service>>, nodeType: string, n: nat, p: nat, q: nat)
    requires Steady(calls, nodeType, n) && p < n && q < n
    ensures -1 <= Hits(counters, calls, nodeType, p) - Hits(counters, calls, nodeType, q) <= 1
  {
    HitsAreTurns(counters, calls, nodeType, n, p);
    HitsAreTurns(counters, calls, nodeType, n, q);
    var c := Count(counters, nodeType);
    FairShare(c, c + CallsFor(calls, nodeType), n, p, q);
  }

  /** Every n consecutive calls for the node type choose each position exactly once. */
  lemma EveryRoundHitsEach(counters: map<string, nat>, calls: seq<seq<Service>>, nodeType: string, n: nat, p: nat)
    requires Steady(calls, nodeType, n) && p < n && CallsFor(calls, nodeType) == n
    ensures Hits(counters, calls, nodeType, p) == 1
  {
    HitsAreTurns(counters, calls, nodeType, n, p);
    OneRound(Count(counters, nodeType), n, p);
  }

  /** Lists of changing length break this: a service that is missing every second time may never be chosen. */
  lemma {:induction false} ChangingListsStarve(calls: seq<seq<Service>>, a: Service, b: Service)
    requires forall i :: 0 <= i < |calls| ==> calls[i] == if i % 2 == 0 then [a, b] else [a]
    ensures Hits(map[], calls, a.nodeType, 1) == 0
    ensures Count(After(map[], calls), a.nodeType) == |calls|
  {
    if calls != [] {
      ChangingListsStarve(calls[..|calls| - 1], a, b);
    }
  }

  // ---------------------------------------------------------------- by load

  const MAX_INT := 0x7FFF_FFFF_FFFF_FFFF

  /** A service is only ever chosen for its load if that is below the largest integer. */
  predicate Eligible(s: Service) {
    s.status == "online" && s.load < MAX_INT
  }

  /** Position i holds the first of the least loaded. */
  predicate LeastLoaded(services: seq<Service>, i: nat) {
    && i < |services| && Eligible(services[i])
    && (forall j :: 0 <= j < |services| && Eligible(services[j]) ==> services[i].load <= services[j].load)
    && (forall j :: 0 <= j < i && Eligible(services[j]) ==> services[i].load < services[j].load)
  }

  method SelectByLoad(services: seq<Service>) returns (selected: Option<nat>)
    ensures selected == None <==> services == []
    ensures selected.Some? ==>
              || LeastLoaded(services, selected.value)
              || (selected.value == 0 && forall j :: 0 <= j < |services| ==> !Eligible(services[j]))
  {
    if |services| == 0 { return None; }
    selected := None;
    var minLoad := MAX_INT;
    for k := 0 to |services|
      invariant selected == None ==> minLoad == MAX_INT && forall j :: 0 <= j < k ==> !Eligible(services[j])
      invariant selected.Some? ==> selected.value < k && LeastLoaded(services[..k], selected.value)
      invariant selected.Some? ==> minLoad == services[selected.value].load
    {
      if services[k].status == "online" && services[k].load < minLoad {
        minLoad := services[k].load;
        selected := Some(k);
      }
    }
    if selected == None { return Some(0); }
    assert services[..|services|] == services;
  }

  /** At most one answer is right, so the loop's answer is the only one its contract admits. */
  lemma LeastLoadedIsUnique(services: seq<Service>, i: nat, j: nat)
    requires LeastLoaded(services, i) && LeastLoaded(services, j)
    ensures i == j
  {
  }
}
