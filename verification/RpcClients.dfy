/** The client's lock regions on its own fields. Each does to the client what one step of RpcTransport says. */
module RpcClients {
  import opened Common
  import opened RpcTransport

  /** A capacity-1 channel, made for one call. */
  class Channel {
    var slot: Option<Reply>
    ghost const owner: nat

    constructor (ghost owner: nat)
      ensures this.owner == owner && slot == None
    {
      this.owner := owner;
      slot := None;
    }

    /** The send of a select with a default branch. */
    method TrySend(reply: Reply)
      modifies this
      ensures slot == if old(slot) == None then Some(reply) else old(slot)
    {
      if slot == None {
        slot := Some(reply);
      }
    }
  }

  class RpcClient {
    var requestID: nat
    var callbacks: map<nat, Channel>
    var running: bool
    ghost var issued: nat
    ghost var channels: seq<Channel>  // every channel made, in the order of their calls

    ghost predicate Valid()
      reads this
    {
      && requestID == Id(issued)
      && (forall a :: 0 <= a < |channels| ==> channels[a].owner == a)
      && (forall id :: id in callbacks ==>
            callbacks[id].owner < |channels| && channels[callbacks[id].owner] == callbacks[id])
    }

    /** The client as the step system sees it. */
    ghost function View(): Client
      reads this, channels
    {
      Client(running, issued, map id | id in callbacks :: callbacks[id].owner,
             seq(|channels|, i requires 0 <= i < |channels| reads this, channels => channels[i].slot))
    }

    constructor ()
      ensures Valid() && View() == Client(true, 0, map[], [])
    {
      requestID, issued := 0, 0;
      callbacks, channels := map[], [];
      running := true;
    }

    /** A call makes its channel. */
    method NewChannel() returns (ch: Channel)
      requires Valid()
      modifies this
      ensures Valid() && fresh(ch) && channels == old(channels) + [ch]
      ensures View() == old(View()).(slots := old(View()).slots + [None])
    {
      ch := new Channel(|channels|);
      channels := channels + [ch];
    }

    method NextID() returns (id: nat)
      requires Valid()
      modifies this
      ensures Valid() && View() == old(View()).(issued := old(View()).issued + 1)
      ensures id == Id(View().issued)
    {
      requestID := (requestID + 1) % ID_SPACE;
      issued := issued + 1;
      id := requestID;
    }

    method Register(id: nat, ch: Channel)
      requires Valid() && ch in channels
      modifies this
      ensures Valid() && View() == old(View()).(callbacks := old(View()).callbacks[id := ch.owner])
    {
      callbacks := callbacks[id := ch];
    }

    method Remove(id: nat)
      requires Valid()
      modifies this
      ensures Valid() && View() == Forget(old(View()), id)
    {
      callbacks := callbacks - {id};
    }

    /** The response loop hands one answer over; `index` is its place in the server's log. */
    method HandOver(response: Response, index: nat)
      requires Valid()
      modifies channels
      ensures Valid() && View() == Deliver(old(View()), index, response)
    {
      if response.id in callbacks {
        var ch := callbacks[response.id];
        assert channels[ch.owner] == ch;
        ch.TrySend(Got(index, response));
      }
    }

    /** A waiting call takes what is in its channel. */
    method Take(ch: Channel) returns (reply: Option<Reply>)
      requires Valid() && ch in channels
      modifies ch
      ensures Valid() && reply == old(View()).slots[ch.owner]
      ensures View() == old(View()).(slots := old(View()).slots[ch.owner := None])
    {
      reply := ch.slot;
      ch.slot := None;
    }

    /** Sends nil to the channel of every registered call. */
    method WakeAll()
      requires Valid()
      modifies channels
      ensures Valid() && View() == old(View()).(slots := TearDown(old(View())).slots)
    {
      ghost var before := View();
      ghost var woken := WakeEach();
      forall a ensures a in woken <==> a in before.callbacks.Values {
        if a in woken {
          var id :| id in callbacks && callbacks[id].owner == a;
          assert before.callbacks[id] == a;
        }
      }
    }

    /** The loop over the callbacks, in any order. */
    method WakeEach() returns (ghost woken: set<nat>)
      requires Valid()
      modifies channels
      ensures woken == set id | id in callbacks :: callbacks[id].owner
      ensures forall a :: 0 <= a < |channels| ==>
                channels[a].slot == if a in woken && old(channels[a].slot) == None then Some(Closed) else old(channels[a].slot)
    {
      var ids := callbacks.Keys;
      woken := {};
      while ids != {}
        invariant ids <= callbacks.Keys
        invariant woken == set id | id in callbacks && id !in ids :: callbacks[id].owner
        invariant forall a :: 0 <= a < |channels| ==>
                    channels[a].slot == if a in woken && old(channels[a].slot) == None then Some(Closed) else old(channels[a].slot)
        decreases ids
      {
        var id :| id in ids;
        var ch := callbacks[id];
        assert channels[ch.owner] == ch;
        ch.TrySend(Closed);
        ids := ids - {id};
        woken := woken + {ch.owner};
      }
    }

    /** Disconnect, and the end of the response loop: wake every registered call and forget them all. */
    method TearDownAll() returns (first: bool)
      requires Valid()
      modifies this, channels
      ensures Valid() && first == old(running)
      ensures View() == if old(running) then TearDown(old(View())) else old(View())
    {
      first := running;
      if running {
        WakeAll();
        running := false;
        callbacks := map[];
      }
    }
  }
}
