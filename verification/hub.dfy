/** The hub (hub.go): the registry of clients, the three cases of Run's select
    loop as separate steps, the startup seeding and one tick of the spore
    replenishment. Channels are erased: a packet submitted to the broadcast
    channel waits in `pending` until a broadcast step takes it. */
module Server {
  import opened Wrappers
  import opened Collection
  import opened Objects
  import opened Packets
  import opened StateMachine
  import opened Clients
  import Spawn

  /** The spore population the server keeps up. */
  const MaxSpores: nat := 1000

  /** The most spores one replenishment tick adds. */
  const ReplenishCap: nat := 10

  /** The hub: the registered clients, the shared world and account
      directory, and the packets submitted for broadcast, oldest first. */
  datatype Hub = Hub(clients: Collection<Client>, env: Env, pending: seq<Packet>)

  /** A registered client is stored under its own id, its queue is within
      capacity, and it runs a movement loop exactly when its state says so. */
  ghost predicate ClientOk(id: Id, c: Client)
  {
    && c.id == id
    && QueueBounded(c)
    && LoopsMatchState(c)
  }

  ghost predicate AllClientsOk(clients: Collection<Client>)
  {
    forall k :: k in clients.objects ==> ClientOk(k, clients.objects[k])
  }

  /** The hub invariant: client ids and spore ids are positive and below their
      counters, and every registered client is well formed. */
  ghost predicate Valid(h: Hub)
  {
    && IdsBelowNext(h.clients)
    && AllClientsOk(h.clients)
    && IdsBelowNext(h.env.world.spores)
  }

  /** A client as it is handed to the register channel: no state yet, nothing
      running. */
  ghost predicate Unregistered(c: Client)
  {
    && c.state.None?
    && c.loops == 0
    && QueueBounded(c)
  }

  /** NewHub: no clients, no players, no spores, nothing pending. The account
      directory is whatever the database holds. */
  function NewHub(accounts: Accounts): (h: Hub)
    ensures Len(h.clients) == 0 && Len(h.env.world.players) == 0 && Len(h.env.world.spores) == 0
    ensures h.pending == [] && h.env.accounts == accounts
    ensures Valid(h)
  {
    Hub(New(), Env(World(New(), New()), accounts), [])
  }

  /** The register case: Clients.Add picks the id, and the client is
      initialised with that same id. */
  function Register(h: Hub, c: Client, inputs: Inputs): (r: (Hub, Id))
    ensures r.1 == h.clients.nextId
    ensures r.1 in r.0.clients.objects
    ensures r.0.clients.objects[r.1].id == r.1
    ensures r.0.clients.objects[r.1].state == Some(Connected)
    ensures forall k :: k != r.1 ==> Get(r.0.clients, k) == Get(h.clients, k)
    ensures h.pending <= r.0.pending
  {
    var (added, id) := Add(h.clients, c, None);
    var s := Initialize(c, h.env, inputs, id);
    (Hub(Update(added, id, s.client), s.env, h.pending + s.broadcasts), id)
  }

  /** Registering a fresh client sends it its id and nothing else, and
      leaves the world and the accounts alone. */
  lemma RegisterSendsId(h: Hub, c: Client, inputs: Inputs)
    requires c.state.None? && |c.queue| < SendCapacity
    ensures var (r, id) := Register(h, c, inputs);
      && r.clients.objects[id].queue == c.queue + [Packet(id, IdMsg(id))]
      && r.env == h.env
      && r.pending == h.pending
  {
    var (added, id) := Add(h.clients, c, None);
    InitializeSendsId(c, h.env, inputs, id);
  }

  /** A client fresh from NewWebSocketClient, once registered, is Connected
      under the new id with exactly its id packet queued. The shared data and
      the pending broadcasts are untouched, and the hub stays valid. */
  lemma RegisterNewClient(h: Hub, inputs: Inputs)
    requires Valid(h)
    requires h.clients.nextId < U64 - 1
    ensures var (r, id) := Register(h, NewClient(), inputs);
      && id !in h.clients.objects
      && r.clients.objects[id].state == Some(Connected)
      && r.clients.objects[id].queue == [Packet(id, IdMsg(id))]
      && r.env == h.env && r.pending == h.pending
      && Valid(r)
  {
    RegisterSendsId(h, NewClient(), inputs);
    RegisterKeepsValid(h, NewClient(), inputs);
  }

  /** Registration keeps the hub valid and, while the counter has not
      wrapped, hands out an id no registered client holds. */
  lemma RegisterKeepsValid(h: Hub, c: Client, inputs: Inputs)
    requires Valid(h)
    requires Unregistered(c)
    requires h.clients.nextId < U64 - 1
    ensures Register(h, c, inputs).1 !in h.clients.objects
    ensures Len(Register(h, c, inputs).0.clients) == Len(h.clients) + 1
    ensures Valid(Register(h, c, inputs).0)
  {
    var (added, id) := Add(h.clients, c, None);
    AutoAddIsFresh(h.clients, c);
    var s := Initialize(c, h.env, inputs, id);
    var c1 := c.(id := id);
    SetStateKeepsLoops(c1, h.env, inputs, Some(Connected));
    var r := Register(h, c, inputs).0;
    assert r.clients.objects == added.objects[id := s.client];
    assert ClientOk(id, s.client);
    assert AllClientsOk(r.clients) by {
      forall k | k in r.clients.objects
        ensures ClientOk(k, r.clients.objects[k])
      {
        if k != id {
          assert Get(r.clients, k) == Get(h.clients, k);
        }
      }
    }
  }

  /** The unregister case: removes exactly the entry under the client's id. */
  function Unregister(h: Hub, id: Id): (r: Hub)
    ensures Get(r.clients, id) == None
    ensures forall k :: k != id ==> Get(r.clients, k) == Get(h.clients, k)
    ensures r.env == h.env && r.pending == h.pending
    ensures Valid(h) ==> Valid(r)
  {
    RemoveKeepsIdsBelowNext(h.clients, id);
    h.(clients := Remove(h.clients, id))
  }

  /** The outcome of fanning one packet out: the clients and shared data
      afterwards, what the recipients submitted for broadcast, and the ids
      the packet was delivered to, in order. */
  datatype Fanout = Fanout(clients: Collection<Client>, env: Env, broadcasts: seq<Packet>, delivered: seq<Id>)

  /** The ids among the visits that are not the sender, in visiting order. */
  function Recipients<T>(visits: seq<(Id, T)>, sender: Id): (ids: seq<Id>)
    ensures forall k :: k in ids <==> k != sender && exists i :: 0 <= i < |visits| && visits[i].0 == k
    decreases |visits|
  {
    if |visits| == 0 then []
    else
      var rest := Recipients(visits[1..], sender);
      assert forall i :: 0 <= i < |visits| - 1 ==> visits[1..][i] == visits[i + 1];
      if visits[0].0 == sender then rest else [visits[0].0] + rest
  }

  /** Visits with distinct ids give recipients with distinct ids. */
  lemma {:induction false} RecipientsDistinct<T>(visits: seq<(Id, T)>, sender: Id)
    requires DistinctIds(visits)
    ensures Unique(Recipients(visits, sender))
    decreases |visits|
  {
    if |visits| > 0 {
      var tail := visits[1..];
      assert forall i :: 0 <= i < |tail| ==> tail[i] == visits[i + 1];
      assert DistinctIds(tail);
      RecipientsDistinct(tail, sender);
      var rest := Recipients(tail, sender);
      assert Unique(rest);
      if visits[0].0 != sender {
        var id := visits[0].0;
        assert id !in rest;
        var d := [id] + rest;
        assert Recipients(visits, sender) == d;
        forall i, j | 0 <= i < j < |d|
          ensures d[i] != d[j]
        {
          assert d[j] == rest[j - 1] && rest[j - 1] in rest;
          if i > 0 {
            assert d[i] == rest[i - 1];
          }
        }
      }
    }
  }

  /** The ForEach of the broadcast case: every visited client other than the
      sender processes the packet; the sender is skipped. */
  function Deliver(clients: Collection<Client>, env: Env, inputs: Inputs, p: Packet, visits: seq<(Id, Client)>): (r: Fanout)
    requires forall i :: 0 <= i < |visits| ==> visits[i].0 in clients.objects
    ensures r.clients.objects.Keys == clients.objects.Keys && r.clients.nextId == clients.nextId
    ensures r.delivered == Recipients(visits, p.senderId)
    ensures forall k :: k in clients.objects && k !in r.delivered ==> r.clients.objects[k] == clients.objects[k]
    ensures r.env.world.spores == env.world.spores
    decreases |visits|
  {
    if |visits| == 0 then Fanout(clients, env, [], [])
    else
      var id := visits[0].0;
      if id == p.senderId then Deliver(clients, env, inputs, p, visits[1..])
      else
        var s := ProcessMessage(clients.objects[id], env, inputs, p.senderId, p.msg);
        var rest := Deliver(Update(clients, id, s.client), s.env, inputs, p, visits[1..]);
        Fanout(rest.clients, rest.env, s.broadcasts + rest.broadcasts, [id] + rest.delivered)
  }

  /** Fanning a packet out keeps every client well formed. */
  lemma {:induction false} DeliverKeepsAllOk(clients: Collection<Client>, env: Env, inputs: Inputs, p: Packet, visits: seq<(Id, Client)>)
    requires forall i :: 0 <= i < |visits| ==> visits[i].0 in clients.objects
    ensures AllClientsOk(clients) ==> AllClientsOk(Deliver(clients, env, inputs, p, visits).clients)
    decreases |visits|
  {
    if |visits| > 0 && AllClientsOk(clients) {
      var id := visits[0].0;
      if id == p.senderId {
        DeliverKeepsAllOk(clients, env, inputs, p, visits[1..]);
      } else {
        var s := ProcessMessage(clients.objects[id], env, inputs, p.senderId, p.msg);
        DeliverKeepsOk(clients, id, env, inputs, p);
        DeliverKeepsAllOk(Update(clients, id, s.client), s.env, inputs, p, visits[1..]);
      }
    }
  }

  /** One delivery keeps every client well formed. */
  lemma DeliverKeepsOk(clients: Collection<Client>, id: Id, env: Env, inputs: Inputs, p: Packet)
    requires id in clients.objects
    ensures var s := ProcessMessage(clients.objects[id], env, inputs, p.senderId, p.msg);
      AllClientsOk(clients) ==> AllClientsOk(Update(clients, id, s.client))
  {
    var c := clients.objects[id];
    var s := ProcessMessage(c, env, inputs, p.senderId, p.msg);
    if AllClientsOk(clients) {
      ProcessMessageKeepsLoops(c, env, inputs, p.senderId, p.msg);
      var u := Update(clients, id, s.client);
      forall k | k in u.objects
        ensures ClientOk(k, u.objects[k])
      {
        if k != id {
          assert Get(u, k) == Get(clients, k);
        } else {
          assert u.objects[k] == s.client;
        }
      }
    }
  }

  /** The broadcast case: take the oldest pending packet and fan it out over
      the clients in the order the runtime picks. */
  function BroadcastStep(h: Hub, inputs: Inputs, order: seq<Id>): (r: (Hub, seq<Id>))
    ensures h.pending == [] ==> r == (h, [])
    ensures h.pending != [] ==> h.pending[1..] <= r.0.pending
    ensures h.pending != [] ==> r.1 == Recipients(Snapshot(h.clients, order), h.pending[0].senderId)
    ensures r.0.clients.objects.Keys == h.clients.objects.Keys
    ensures Valid(h) ==> Valid(r.0)
  {
    if h.pending == [] then (h, [])
    else
      var p := h.pending[0];
      var visits := Snapshot(h.clients, order);
      var f := Deliver(h.clients, h.env, inputs, p, visits);
      DeliverKeepsAllOk(h.clients, h.env, inputs, p, visits);
      (Hub(f.clients, f.env, h.pending[1..] + f.broadcasts), f.delivered)
  }

  /** A broadcast reaches every registered client except the sender, each
      exactly once, and leaves the sender's entry as it was. */
  lemma BroadcastExactlyOnce(h: Hub, inputs: Inputs, order: seq<Id>)
    requires h.pending != []
    requires IsEnumeration(order, h.clients.objects.Keys)
    ensures var (r, delivered) := BroadcastStep(h, inputs, order);
      var sender := h.pending[0].senderId;
      && (forall k :: k in delivered <==> k in h.clients.objects && k != sender)
      && Unique(delivered)
      && (sender in h.clients.objects ==> r.clients.objects[sender] == h.clients.objects[sender])
  {
    var p := h.pending[0];
    var visits := Snapshot(h.clients, order);
    var f := Deliver(h.clients, h.env, inputs, p, visits);
    assert BroadcastStep(h, inputs, order) == (Hub(f.clients, f.env, h.pending[1..] + f.broadcasts), f.delivered);
    SnapshotVisitsEachOnce(h.clients, order);
    RecipientsDistinct(visits, p.senderId);
    assert forall k :: k in h.clients.objects ==> exists i :: 0 <= i < |visits| && visits[i].0 == k;
    assert p.senderId !in f.delivered;
  }

  /** Every registered client is stored under its own id. */
  ghost predicate IdsMatch(clients: Collection<Client>)
  {
    forall k :: k in clients.objects ==> clients.objects[k].id == k
  }

  /** Fanning out a chat or a player update: each recipient is changed as
      Relayed says, from its entry before the fan-out; the shared data is
      untouched and nothing is broadcast in turn. */
  lemma {:induction false} DeliverRelay(clients: Collection<Client>, env: Env, inputs: Inputs, p: Packet, visits: seq<(Id, Client)>)
    requires forall i :: 0 <= i < |visits| ==> visits[i].0 in clients.objects
    requires DistinctIds(visits)
    requires IdsMatch(clients)
    requires Relayable(p.msg)
    ensures var f := Deliver(clients, env, inputs, p, visits);
      && f.env == env && f.broadcasts == []
      && forall k :: k in clients.objects && k in f.delivered ==> f.clients.objects[k] == Relayed(clients.objects[k], p)
    decreases |visits|
  {
    if |visits| > 0 {
      var id := visits[0].0;
      var tail := visits[1..];
      assert DistinctIds(tail) by {
        forall i, j | 0 <= i < j < |tail|
          ensures IdsOf(tail)[i] != IdsOf(tail)[j]
        {
          assert IdsOf(tail)[i] == IdsOf(visits)[i + 1];
          assert IdsOf(tail)[j] == IdsOf(visits)[j + 1];
        }
      }
      if id == p.senderId {
        DeliverRelay(clients, env, inputs, p, tail);
      } else {
        var c := clients.objects[id];
        RelayFromPeer(c, env, inputs, p.senderId, p.msg);
        var u := Update(clients, id, Relayed(c, p));
        DeliverRelay(u, env, inputs, p, tail);
        var rest := Deliver(u, env, inputs, p, tail);
        assert id !in rest.delivered by {
          forall i | 0 <= i < |tail|
            ensures tail[i].0 != id
          {
            assert IdsOf(visits)[0] != IdsOf(visits)[i + 1];
          }
        }
      }
    }
  }

  /** A chat or a player update taken from the pending queue reaches every
      other registered client once, as Relayed says: an InGame client queues
      it under the sender's id, any other client ignores it. The sender's
      entry, the shared data and the rest of the queue are untouched. */
  lemma RelayReachesPeers(h: Hub, inputs: Inputs, order: seq<Id>)
    requires Valid(h)
    requires h.pending != [] && Relayable(h.pending[0].msg)
    requires IsEnumeration(order, h.clients.objects.Keys)
    ensures var r := BroadcastStep(h, inputs, order).0;
      var p := h.pending[0];
      && r.env == h.env
      && r.pending == h.pending[1..]
      && r.clients.objects.Keys == h.clients.objects.Keys
      && forall k :: k in h.clients.objects ==>
           r.clients.objects[k] == if k == p.senderId then h.clients.objects[k] else Relayed(h.clients.objects[k], p)
  {
    var p := h.pending[0];
    var visits := Snapshot(h.clients, order);
    SnapshotVisitsEachOnce(h.clients, order);
    DeliverRelay(h.clients, h.env, inputs, p, visits);
    var f := Deliver(h.clients, h.env, inputs, p, visits);
    assert BroadcastStep(h, inputs, order) == (Hub(f.clients, f.env, h.pending[1..] + f.broadcasts), f.delivered);
    assert h.pending[1..] + [] == h.pending[1..];
    forall k | k in h.clients.objects && k != p.senderId
      ensures k in f.delivered
    {
      var i :| 0 <= i < |visits| && visits[i].0 == k;
    }
  }

  /** A packet with sender 0, as the replenishment loop submits, reaches every
      registered client: client ids start at 1. */
  lemma ReplenishPacketReachesAll(h: Hub, inputs: Inputs, order: seq<Id>)
    requires Valid(h)
    requires h.pending != [] && h.pending[0].senderId == 0
    requires IsEnumeration(order, h.clients.objects.Keys)
    ensures forall k :: k in BroadcastStep(h, inputs, order).1 <==> k in h.clients.objects
  {
    BroadcastExactlyOnce(h, inputs, order);
  }

  /** Fanning out a spore message changes no client and no shared data and
      submits nothing: neither state handles it. */
  lemma {:induction false} SporeFanoutChangesNothing(clients: Collection<Client>, env: Env, inputs: Inputs, p: Packet, visits: seq<(Id, Client)>)
    requires forall i :: 0 <= i < |visits| ==> visits[i].0 in clients.objects
    requires p.msg.SporeMsg?
    ensures var f := Deliver(clients, env, inputs, p, visits);
      f.clients == clients && f.env == env && f.broadcasts == []
    decreases |visits|
  {
    if |visits| > 0 {
      var id := visits[0].0;
      if id != p.senderId {
        var c := clients.objects[id];
        SporeMessageIgnored(c, env, inputs, p.senderId, p.msg.spore);
        assert Update(clients, id, c) == clients;
      }
      SporeFanoutChangesNothing(clients, env, inputs, p, visits[1..]);
    }
  }

  /** Spore packets are delivered to everyone and change nothing: the
      broadcast step only drops the packet from the pending queue. */
  lemma SporeBroadcastOnlyDequeues(h: Hub, inputs: Inputs, order: seq<Id>)
    requires h.pending != [] && h.pending[0].msg.SporeMsg?
    ensures BroadcastStep(h, inputs, order).0 == h.(pending := h.pending[1..])
  {
    var visits := Snapshot(h.clients, order);
    SporeFanoutChangesNothing(h.clients, h.env, inputs, h.pending[0], visits);
    assert h.pending[1..] + [] == h.pending[1..];
  }

  /** One packet read by ReadPump for a registered client. */
  function Receive(h: Hub, id: Id, p: Packet, inputs: Inputs): (r: Hub)
    ensures id !in h.clients.objects ==> r == h
    ensures id in h.clients.objects ==>
              var c := h.clients.objects[id];
              var s := ProcessMessage(c, h.env, inputs, InboundSender(c, p), p.msg);
              && Get(r.clients, id) == Some(s.client)
              && r.env == s.env
              && r.pending == h.pending + s.broadcasts
    ensures r.clients.objects.Keys == h.clients.objects.Keys
    ensures forall k :: k != id ==> Get(r.clients, k) == Get(h.clients, k)
    ensures h.pending <= r.pending
    ensures Valid(h) ==> Valid(r)
  {
    if id !in h.clients.objects then h
    else
      var c := h.clients.objects[id];
      var s := ProcessMessage(c, h.env, inputs, InboundSender(c, p), p.msg);
      DeliverKeepsOk(h.clients, id, h.env, inputs, Packet(InboundSender(c, p), p.msg));
      Hub(Update(h.clients, id, s.client), s.env, h.pending + s.broadcasts)
  }

  /** A packet the client sends with sender 0 is handled exactly as if it
      carried the client's own id. */
  lemma ReceiveDefaultsSender(h: Hub, id: Id, msg: Msg, inputs: Inputs)
    requires Valid(h)
    ensures Receive(h, id, Packet(0, msg), inputs) == Receive(h, id, Packet(id, msg), inputs)
  {
  }

  /** One iteration of a registered client's WritePump: its oldest queued
      packet leaves the queue. An unregistered id, or an empty queue, changes
      nothing. */
  function Write(h: Hub, id: Id): (r: (Hub, Option<Packet>))
    ensures id !in h.clients.objects ==> r == (h, None)
    ensures r.0.clients.objects.Keys == h.clients.objects.Keys
    ensures id in h.clients.objects ==>
              var c := h.clients.objects[id];
              && (c.queue == [] ==> r == (h, None))
              && (c.queue != [] ==> r.1 == Some(c.queue[0]) && r.0.clients.objects[id].queue == c.queue[1..])
              && r.0.clients.objects[id].state == c.state
    ensures forall k :: k != id ==> Get(r.0.clients, k) == Get(h.clients, k)
    ensures r.0.env == h.env && r.0.pending == h.pending
    ensures Valid(h) ==> Valid(r.0)
  {
    if id !in h.clients.objects then (h, None)
    else
      var c := h.clients.objects[id];
      var (c', out) := WriteOne(c);
      if out.None? then (h, None)
      else
        var r := h.(clients := Update(h.clients, id, c'));
        assert Valid(h) ==> AllClientsOk(r.clients) by {
          if Valid(h) {
            forall k | k in r.clients.objects
              ensures ClientOk(k, r.clients.objects[k])
            {
              if k != id {
                assert Get(r.clients, k) == Get(h.clients, k);
              }
            }
          }
        }
        (r, out)
  }

  /** PassToPeer: the peer, if registered, processes the message as coming
      from this client; otherwise nothing happens. */
  function PassToPeer(h: Hub, fromId: Id, peerId: Id, msg: Msg, inputs: Inputs): (r: Hub)
    ensures peerId !in h.clients.objects ==> r == h
    ensures peerId in h.clients.objects ==>
              var s := ProcessMessage(h.clients.objects[peerId], h.env, inputs, fromId, msg);
              && Get(r.clients, peerId) == Some(s.client)
              && r.env == s.env
              && r.pending == h.pending + s.broadcasts
    ensures forall k :: k != peerId ==> Get(r.clients, k) == Get(h.clients, k)
    ensures Valid(h) ==> Valid(r)
  {
    if peerId !in h.clients.objects then h
    else
      var peer := h.clients.objects[peerId];
      var s := ProcessMessage(peer, h.env, inputs, fromId, msg);
      DeliverKeepsOk(h.clients, peerId, h.env, inputs, Packet(fromId, msg));
      Hub(Update(h.clients, peerId, s.client), s.env, h.pending + s.broadcasts)
  }

  /** Close: switch to the nil state, which runs the current state's exit
      hook, then unregister. */
  function Close(h: Hub, id: Id, inputs: Inputs): (r: Hub)
    ensures Get(r.clients, id) == None
    ensures forall k :: k != id ==> Get(r.clients, k) == Get(h.clients, k)
    ensures id !in h.clients.objects ==> r == h
    ensures Valid(h) ==> Valid(r)
  {
    if id !in h.clients.objects then h
    else
      var s := SetState(h.clients.objects[id], h.env, inputs, None);
      RemoveKeepsIdsBelowNext(h.clients, id);
      Hub(Remove(h.clients, id), s.env, h.pending + s.broadcasts)
  }

  /** Closing an in-game client removes its player from the world before the
      client leaves the registry; both pumps closing is the same as one. */
  lemma CloseRemovesPlayer(h: Hub, id: Id, inputs: Inputs)
    requires Valid(h)
    requires id in h.clients.objects && h.clients.objects[id].state.Some?
    requires h.clients.objects[id].state.value.InGame?
    ensures Get(Close(h, id, inputs).env.world.players, id) == None
    ensures Close(Close(h, id, inputs), id, inputs) == Close(h, id, inputs)
  {
    var c := h.clients.objects[id];
    SetStateNilRunsExit(c, h.env, inputs, c.state.value.player, c.state.value.loopStarted);
  }

  /** Register followed by Close leaves no entry under the new id. */
  lemma RegisterThenClose(h: Hub, c: Client, inputs: Inputs)
    ensures var (r, id) := Register(h, c, inputs);
      && Get(Close(r, id, inputs).clients, id) == None
      && (forall k :: k != id ==> Get(Close(r, id, inputs).clients, k) == Get(h.clients, k))
  {
  }

  /** NewSpore's radius: ten plus three times a standard normal draw, floored
      at five. */
  function SporeRadius(normal: real): (r: real)
    ensures r >= 5.0
    ensures r >= 10.0 + normal * 3.0
    ensures r == 5.0 || r == 10.0 + normal * 3.0
  {
    var raw := 10.0 + normal * 3.0;
    if raw > 5.0 then raw else 5.0
  }

  /** The spore stored under `id` overlaps no player and no spore stored
      under a smaller id. */
  ghost predicate Separated(world: World, id: Id)
  {
    && id in world.spores.objects
    && var s := world.spores.objects[id];
    && !Spawn.NearAny(s.x, s.y, s.radius, Some(world.players), PlayerCircle)
    && forall k :: k in world.spores.objects && k < id ==>
         !Spawn.Overlaps(s.x, s.y, s.radius, SporeCircle(world.spores.objects[k]))
  }

  /** NewSpore: draw the radius, then search for a free position among the
      current players and spores. None when the draws run out before a free
      candidate turns up. */
  method NewSpore(world: World, normal: real, draws: seq<real>) returns (s: Option<Spore>)
    ensures s.Some? ==> s.value.radius == SporeRadius(normal)
    ensures s.Some? ==> Spawn.Free((s.value.x, s.value.y), s.value.radius, Some(world.players), Some(world.spores))
    ensures s.None? ==> forall j: nat :: 2 * j + 1 < |draws| ==>
              !Spawn.Free(Spawn.Candidate(draws, j), SporeRadius(normal), Some(world.players), Some(world.spores))
  {
    var radius := SporeRadius(normal);
    var pos, n := Spawn.SpawnCoords(radius, Some(world.players), Some(world.spores), draws);
    if pos.None? {
      return None;
    }
    return Some(Spore(pos.value.0, pos.value.1, radius));
  }

  /** Adding a free spore under the counter keeps every spore from `from`
      on separated, the new one included. */
  lemma AddKeepsSeparated(world: World, s: Spore, from: Id)
    requires IdsBelowNext(world.spores)
    requires world.spores.nextId < U64 - 1
    requires Spawn.Free((s.x, s.y), s.radius, Some(world.players), Some(world.spores))
    requires forall id :: from <= id < world.spores.nextId ==> Separated(world, id)
    ensures var w := world.(spores := Add(world.spores, s, None).0);
      forall id :: from <= id < w.spores.nextId ==> Separated(w, id)
  {
    var n := world.spores.nextId;
    var w := world.(spores := Add(world.spores, s, None).0);
    assert w.spores.objects == world.spores.objects[n := s];
    forall id | from <= id < w.spores.nextId
      ensures Separated(w, id)
    {
      if id < n {
        assert Separated(world, id);
      } else {
        assert id == n;
        forall k | k in w.spores.objects && k < id
          ensures !Spawn.Overlaps(s.x, s.y, s.radius, SporeCircle(w.spores.objects[k]))
        {
          assert k in world.spores.objects;
        }
      }
    }
  }

  /** `w` is `world` with `placed` separated spores of radius at least five
      added under the next ids, everything else as it was. */
  ghost predicate Extends(world: World, w: World, placed: nat)
  {
    && w.players == world.players
    && IdsBelowNext(w.spores)
    && w.spores.nextId == world.spores.nextId + placed
    && Len(w.spores) == Len(world.spores) + placed
    && (forall k :: k in world.spores.objects ==> k in w.spores.objects && w.spores.objects[k] == world.spores.objects[k])
    && (forall k :: k in w.spores.objects <==> k in world.spores.objects || world.spores.nextId <= k < w.spores.nextId)
    && (forall id :: world.spores.nextId <= id < w.spores.nextId ==> Separated(w, id) && w.spores.objects[id].radius >= 5.0)
  }

  /** Adding one more free spore of radius at least five extends by one. */
  lemma ExtendsByOne(world: World, w: World, placed: nat, spore: Spore)
    requires IdsBelowNext(world.spores)
    requires Extends(world, w, placed)
    requires w.spores.nextId < U64 - 1
    requires spore.radius >= 5.0
    requires Spawn.Free((spore.x, spore.y), spore.radius, Some(w.players), Some(w.spores))
    ensures Extends(world, w.(spores := Add(w.spores, spore, None).0), placed + 1)
  {
    AddKeepsSeparated(w, spore, world.spores.nextId);
    AutoAddIsFresh(w.spores, spore);
    var next := w.(spores := Add(w.spores, spore, None).0);
    assert next.spores.objects == w.spores.objects[w.spores.nextId := spore];
  }

  /** Adds up to `count` spores, each through NewSpore on the world as it is
      at that moment, stopping early only when the random inputs run out. */
  method PlaceSpores(world: World, count: nat, normals: seq<real>, draws: seq<seq<real>>) returns (w: World, placed: nat)
    requires IdsBelowNext(world.spores)
    requires world.spores.nextId + count < U64
    ensures placed <= count
    ensures Extends(world, w, placed)
    ensures placed < count ==>
              || placed >= |normals| || placed >= |draws|
              || forall j: nat :: 2 * j + 1 < |draws[placed]| ==>
                   !Spawn.Free(Spawn.Candidate(draws[placed], j), SporeRadius(normals[placed]), Some(w.players), Some(w.spores))
  {
    w := world;
    placed := 0;
    while placed < count
      invariant placed <= count
      invariant Extends(world, w, placed)
    {
      if placed >= |normals| || placed >= |draws| {
        return;
      }
      var s := NewSpore(w, normals[placed], draws[placed]);
      if s.None? {
        return;
      }
      ExtendsByOne(world, w, placed, s.value);
      w := w.(spores := Add(w.spores, s.value, None).0);
      placed := placed + 1;
    }
  }

  /** Changing only the spores, the accounts and the pending packets keeps
      the hub valid as long as the spore ids stay below their counter. */
  lemma ValidWithSpores(h: Hub, r: Hub)
    requires Valid(h)
    requires r.clients == h.clients
    requires IdsBelowNext(r.env.world.spores)
    ensures Valid(r)
  {
  }

  /** A world extends itself by nothing. */
  lemma ExtendsRefl(world: World)
    requires IdsBelowNext(world.spores)
    ensures Extends(world, world, 0)
  {
  }

  /** Extending twice is extending once by the sum. */
  lemma ExtendsTrans(w0: World, w1: World, a: nat, w2: World, b: nat, total: nat)
    requires Extends(w0, w1, a)
    requires Extends(w1, w2, b)
    requires total == a + b
    ensures Extends(w0, w2, total)
  {
    forall id | w0.spores.nextId <= id < w2.spores.nextId
      ensures Separated(w2, id) && w2.spores.objects[id].radius >= 5.0
    {
      if id < w1.spores.nextId {
        assert Separated(w1, id);
        assert w2.spores.objects[id] == w1.spores.objects[id];
        forall k | k in w2.spores.objects && k < id
          ensures k in w1.spores.objects && w2.spores.objects[k] == w1.spores.objects[k]
        {
        }
      }
    }
  }

  /** Startup seeding: MaxSpores spores are added before the select loop
      starts, unless the random inputs run out first. */
  method Seed(h: Hub, normals: seq<real>, draws: seq<seq<real>>) returns (r: Hub, placed: nat)
    requires IdsBelowNext(h.env.world.spores)
    requires h.env.world.spores.nextId + MaxSpores < U64
    ensures r == h.(env := r.env) && r.env.accounts == h.env.accounts
    ensures placed <= MaxSpores
    ensures Extends(h.env.world, r.env.world, placed)
    ensures placed < MaxSpores ==>
              || placed >= |normals| || placed >= |draws|
              || forall j: nat :: 2 * j + 1 < |draws[placed]| ==>
                   !Spawn.Free(Spawn.Candidate(draws[placed], j), SporeRadius(normals[placed]), Some(r.env.world.players), Some(r.env.world.spores))
    ensures Valid(h) ==> Valid(r)
  {
    var w;
    w, placed := PlaceSpores(h.env.world, MaxSpores, normals, draws);
    r := h.(env := h.env.(world := w));
  }

  /** Seeding the hub NewHub builds: the spores are exactly the ones placed,
      under ids 1 to placed, and the hub is valid with room for further
      replenishment. */
  method SeedNewHub(accounts: Accounts, normals: seq<real>, draws: seq<seq<real>>) returns (r: Hub, placed: nat)
    ensures Len(r.env.world.spores) == placed <= MaxSpores
    ensures r.env.world.spores.nextId == 1 + placed
    ensures Len(r.env.world.players) == 0 && Len(r.clients) == 0 && r.pending == []
    ensures Extends(NewHub(accounts).env.world, r.env.world, placed)
    ensures Valid(r)
    ensures placed < MaxSpores ==>
              || placed >= |normals| || placed >= |draws|
              || forall j: nat :: 2 * j + 1 < |draws[placed]| ==>
                   !Spawn.Free(Spawn.Candidate(draws[placed], j), SporeRadius(normals[placed]), Some(r.env.world.players), Some(r.env.world.spores))
  {
    var h := NewHub(accounts);
    r, placed := Seed(h, normals, draws);
  }

  function Min(a: int, b: int): (m: int)
    ensures m <= a && m <= b && (m == a || m == b)
  {
    if a < b then a else b
  }

  /** The packets announcing the spores stored under n0 .. n0 + count - 1:
      each comes from sender 0 and carries a spore message with id 0. */
  function Announcements(spores: Collection<Spore>, n0: Id, count: nat): (ps: seq<Packet>)
    requires n0 + count <= U64
    requires forall k :: n0 <= k < n0 + count ==> k in spores.objects
    ensures |ps| == count
    ensures forall i :: 0 <= i < count ==> ps[i] == Packet(0, Packets.NewSpore(0, spores.objects[n0 + i]))
  {
    seq(count, i requires 0 <= i < count => Packet(0, Packets.NewSpore(0, spores.objects[n0 + i])))
  }

  /** One tick of the replenishment loop: if fewer than MaxSpores spores are
      left, add min(diff, 10) new ones, each announced with a packet from
      sender 0 whose spore message carries id 0. */
  method ReplenishTick(h: Hub, normals: seq<real>, draws: seq<seq<real>>) returns (r: Hub, packets: seq<Packet>)
    requires IdsBelowNext(h.env.world.spores)
    requires h.env.world.spores.nextId + ReplenishCap < U64
    ensures Len(h.env.world.spores) >= MaxSpores ==> r == h && packets == []
    ensures r.clients == h.clients && r.env.accounts == h.env.accounts
    ensures r.pending == h.pending + packets
    ensures |packets| <= ReplenishCap
    ensures Extends(h.env.world, r.env.world, |packets|)
    ensures Len(h.env.world.spores) <= MaxSpores ==> Len(r.env.world.spores) <= MaxSpores
    ensures Len(h.env.world.spores) < MaxSpores && |packets| < Min(MaxSpores - Len(h.env.world.spores), ReplenishCap) ==>
              || |packets| >= |normals| || |packets| >= |draws|
              || forall j: nat :: 2 * j + 1 < |draws[|packets|]| ==>
                   !Spawn.Free(Spawn.Candidate(draws[|packets|], j), SporeRadius(normals[|packets|]), Some(r.env.world.players), Some(r.env.world.spores))
    ensures packets == Announcements(r.env.world.spores, h.env.world.spores.nextId, |packets|)
    ensures Valid(h) ==> Valid(r)
  {
    var remaining := Len(h.env.world.spores);
    var diff := MaxSpores - remaining;
    if diff <= 0 {
      ExtendsRefl(h.env.world);
      return h, [];
    }
    var n0 := h.env.world.spores.nextId;
    var w, placed := PlaceSpores(h.env.world, Min(diff, ReplenishCap), normals, draws);
    packets := Announcements(w.spores, n0, placed);
    r := h.(env := h.env.(world := w), pending := h.pending + packets);
    if Valid(h) {
      ValidWithSpores(h, r);
    }
  }

  /** ReplenishTick seen from the loop that repeats it: only the growth of
      the world and of the pending queue. The narrower contract keeps the
      loop's proof obligations small; Tick adds no behaviour of its own. */
  method Tick(h: Hub, normals: seq<real>, draws: seq<seq<real>>) returns (r: Hub, packets: seq<Packet>)
    requires IdsBelowNext(h.env.world.spores)
    requires h.env.world.spores.nextId + ReplenishCap < U64
    ensures |packets| <= ReplenishCap
    ensures Extends(h.env.world, r.env.world, |packets|)
    ensures Len(h.env.world.spores) <= MaxSpores ==> Len(r.env.world.spores) <= MaxSpores
    ensures r.clients == h.clients && r.env.accounts == h.env.accounts
    ensures r.pending == h.pending + packets
  {
    r, packets := ReplenishTick(h, normals, draws);
  }

  /** What the replenishment loop keeps after `ticks` ticks have produced
      `packets`. */
  ghost predicate Replenished(h: Hub, r: Hub, packets: seq<Packet>, ticks: nat)
  {
    && |packets| <= ReplenishCap * ticks
    && Grown(h.env.world, r.env.world, |packets|)
    && r.clients == h.clients && r.env.accounts == h.env.accounts
    && r.pending == h.pending + packets
  }

  /** `w` extends `world` by `placed` spores and stays within MaxSpores. */
  ghost predicate Grown(world: World, w: World, placed: nat)
  {
    Len(w.spores) <= MaxSpores && Extends(world, w, placed)
  }

  /** Growth composes across ticks. */
  lemma GrownStep(w0: World, w1: World, a: nat, w2: World, b: nat, total: nat)
    requires Grown(w0, w1, a)
    requires Extends(w1, w2, b) && Len(w2.spores) <= MaxSpores
    requires total == a + b
    ensures Grown(w0, w2, total)
  {
    ExtendsTrans(w0, w1, a, w2, b, total);
  }

  /** Appending a tick's announcements to the queue after the earlier ones. */
  lemma QueueAppend<T>(queue: seq<T>, earlier: seq<T>, later: seq<T>)
    ensures queue + earlier + later == queue + (earlier + later)
  {
  }

  /** One more tick keeps what the loop keeps. */
  lemma {:induction false} ReplenishedStep(h: Hub, r: Hub, packets: seq<Packet>, ticks: nat, r': Hub, ps: seq<Packet>)
    requires Replenished(h, r, packets, ticks)
    requires |ps| <= ReplenishCap
    requires Extends(r.env.world, r'.env.world, |ps|)
    requires Len(r'.env.world.spores) <= MaxSpores
    requires r'.clients == r.clients && r'.env.accounts == r.env.accounts
    requires r'.pending == r.pending + ps
    ensures Replenished(h, r', packets + ps, ticks + 1)
  {
    GrownStep(h.env.world, r.env.world, |packets|, r'.env.world, |ps|, |packets + ps|);
    assert ReplenishCap * (ticks + 1) == ReplenishCap * ticks + ReplenishCap;
    QueueAppend(h.pending, packets, ps);
  }

  /** The replenishment loop over several ticks, each with its own random
      inputs: a population at or below MaxSpores stays there, each tick adds at
      most ReplenishCap spores, and all of them are announced in order. */
  method Replenish(h: Hub, rounds: seq<(seq<real>, seq<seq<real>>)>) returns (r: Hub, packets: seq<Packet>)
    requires IdsBelowNext(h.env.world.spores)
    requires h.env.world.spores.nextId + ReplenishCap * |rounds| < U64
    requires Len(h.env.world.spores) <= MaxSpores
    ensures Len(r.env.world.spores) <= MaxSpores
    ensures |packets| <= ReplenishCap * |rounds|
    ensures Extends(h.env.world, r.env.world, |packets|)
    ensures r.clients == h.clients && r.env.accounts == h.env.accounts
    ensures r.pending == h.pending + packets
    ensures Valid(h) ==> Valid(r)
  {
    r, packets := h, [];
    ExtendsRefl(h.env.world);
    var i := 0;
    while i < |rounds|
      invariant 0 <= i <= |rounds|
      invariant Replenished(h, r, packets, i)
    {
      var r', ps := Tick(r, rounds[i].0, rounds[i].1);
      ReplenishedStep(h, r, packets, i, r', ps);
      r, packets := r', packets + ps;
      i := i + 1;
    }
    if Valid(h) {
      ValidWithSpores(h, r);
    }
  }
}
