/** The client facade (clients/websocket.go): the bounded outbound queue, the
    state switch, message dispatch, and the interpretation of the actions the
    state handlers ask for. Sockets, protobuf and the pumps' goroutines are not
    modelled; an inbound packet is an argument. */
module Clients {
  import opened Wrappers
  import opened Collection
  import opened Objects
  import opened Packets
  import opened StateMachine
  import ConnectedHandler
  import InGameHandler
  import Text

  /** Capacity of sendChan. */
  const SendCapacity: nat := 256

  /** A client: its id, the packets waiting in sendChan, its state (None for
      Go's nil), and the number of movement loops running for it. */
  datatype Client = Client(id: Id, queue: seq<Packet>, state: Option<State>, loops: nat)

  /** The shared mutable data a client's handlers touch. */
  datatype Env = Env(world: World, accounts: Accounts)

  /** Values the runtime supplies: the collaborators' outcomes, the two
      uniform draws InGame.OnEnter uses, and the order a ForEach over the
      spores visits them in. */
  datatype Inputs = Inputs(backend: Backend, entry: (real, real), sporeOrder: seq<Id>)

  /** The result of a client step: the client, the shared data, and the
      packets it submitted to the hub's broadcast channel, in order. */
  datatype Step = Step(client: Client, env: Env, broadcasts: seq<Packet>)

  /** A client as NewWebSocketClient builds it: no id yet, an empty queue, no
      state. */
  function NewClient(): (c: Client)
    ensures c.queue == [] && c.state.None? && c.loops == 0
  {
    Client(0, [], None, 0)
  }

  ghost predicate QueueBounded(c: Client)
  {
    |c.queue| <= SendCapacity
  }

  /** SocketSendAs: enqueue without blocking if there is room; otherwise drop
      the message and leave the queue as it was. */
  function SocketSendAs(c: Client, msg: Msg, senderId: Id): (r: Client)
    ensures |c.queue| < SendCapacity ==> r.queue == c.queue + [Packet(senderId, msg)]
    ensures |c.queue| >= SendCapacity ==> r == c
    ensures r.id == c.id && r.state == c.state && r.loops == c.loops
    ensures QueueBounded(c) ==> QueueBounded(r)
  {
    if |c.queue| < SendCapacity then c.(queue := c.queue + [Packet(senderId, msg)]) else c
  }

  /** SocketSend: send under the client's own id. */
  function SocketSend(c: Client, msg: Msg): (r: Client)
    ensures r == SocketSendAs(c, msg, c.id)
  {
    SocketSendAs(c, msg, c.id)
  }

  /** One iteration of WritePump: the oldest packet leaves sendChan (writing
      it to the socket is not modelled). None when the channel is empty. */
  function WriteOne(c: Client): (r: (Client, Option<Packet>))
    ensures c.queue == [] ==> r == (c, None)
    ensures c.queue != [] ==> r.1 == Some(c.queue[0]) && c.queue == [c.queue[0]] + r.0.queue
    ensures r.0.id == c.id && r.0.state == c.state && r.0.loops == c.loops
    ensures QueueBounded(c) ==> QueueBounded(r.0)
    ensures QueueBounded(c) && c.queue != [] ==> |r.0.queue| < SendCapacity
  {
    if c.queue == [] then (c, None) else (c.(queue := c.queue[1..]), Some(c.queue[0]))
  }

  /** sendChan is first in, first out: writing the oldest packet and queueing
      a new one commute while there is room, and a full channel accepts a
      packet again once one has been written. */
  lemma SendWriteCommute(c: Client, msg: Msg, senderId: Id)
    requires c.queue != []
    ensures |c.queue| <= SendCapacity ==>
              SocketSendAs(WriteOne(c).0, msg, senderId).queue == WriteOne(c).0.queue + [Packet(senderId, msg)]
    ensures |c.queue| < SendCapacity ==>
              WriteOne(SocketSendAs(c, msg, senderId)) == (SocketSendAs(WriteOne(c).0, msg, senderId), Some(c.queue[0]))
  {
    if |c.queue| < SendCapacity {
      assert (c.queue + [Packet(senderId, msg)])[1..] == c.queue[1..] + [Packet(senderId, msg)];
    }
  }

  /** SocketSend of each message in turn. */
  function SendAll(c: Client, msgs: seq<Msg>): (r: Client)
    ensures r.id == c.id && r.state == c.state && r.loops == c.loops
    ensures QueueBounded(c) ==> QueueBounded(r)
    ensures c.queue <= r.queue
    decreases |msgs|
  {
    if |msgs| == 0 then c else SendAll(SocketSend(c, msgs[0]), msgs[1..])
  }

  /** Broadcast: the packet handed to the hub carries the client's own id. */
  function BroadcastPacket(c: Client, msg: Msg): (p: Packet)
    ensures p.senderId == c.id && p.msg == msg
  {
    Packet(c.id, msg)
  }

  /** Carries out one action of a handler. */
  function Perform(c: Client, env: Env, inputs: Inputs, a: Action): (s: Step)
    ensures s.client.id == c.id && s.client.state == c.state
    ensures s.env.world.spores == env.world.spores
    ensures QueueBounded(c) ==> QueueBounded(s.client)
    ensures c.queue <= s.client.queue
    ensures forall i :: 0 <= i < |s.broadcasts| ==> s.broadcasts[i].senderId == c.id
  {
    var w := env.world;
    match a
    case SendAs(senderId, msg) => Step(SocketSendAs(c, msg, senderId), env, [])
    case Broadcast(msg) => Step(c, env, [BroadcastPacket(c, msg)])
    case AddPlayer(id, p) => Step(c, env.(world := w.(players := Add(w.players, p, Some(id)).0)), [])
    case UpdatePlayer(id, p) =>
      if id in w.players.objects then Step(c, env.(world := w.(players := Update(w.players, id, p))), [])
      else Step(c, env, [])
    case RemovePlayer(id) => Step(c, env.(world := w.(players := Remove(w.players, id))), [])
    case StartUpdateLoop => Step(c.(loops := c.loops + 1), env, [])
    case CancelUpdateLoop => Step(c.(loops := if c.loops > 0 then c.loops - 1 else 0), env, [])
    case StreamSpores(batchSize) =>
      var visits := Snapshot(w.spores, inputs.sporeOrder);
      Step(SendAll(c, InGameHandler.SendInitialSpores(visits, batchSize)), env, [])
    case CreateUser(name, hash) => Step(c, env.(accounts := env.accounts[name := hash]), [])
  }

  /** Carries out a handler's actions in order. */
  function PerformAll(c: Client, env: Env, inputs: Inputs, acts: seq<Action>): (s: Step)
    ensures s.client.id == c.id && s.client.state == c.state
    ensures s.env.world.spores == env.world.spores
    ensures QueueBounded(c) ==> QueueBounded(s.client)
    ensures c.queue <= s.client.queue
    ensures forall i :: 0 <= i < |s.broadcasts| ==> s.broadcasts[i].senderId == c.id
    decreases |acts|
  {
    if |acts| == 0 then Step(c, env, [])
    else
      var s1 := Perform(c, env, inputs, acts[0]);
      var s2 := PerformAll(s1.client, s1.env, inputs, acts[1..]);
      Step(s2.client, s2.env, s1.broadcasts + s2.broadcasts)
  }

  /** The current state's OnExit hook, as actions. */
  function OnExit(st: State, self: Id): seq<Action>
  {
    match st
    case Connected => []
    case InGame(_, loopStarted) => InGameHandler.OnExit(self, loopStarted)
  }

  /** The new state's OnEnter hook: its own updated state and its actions. */
  function OnEnter(st: State, self: Id, inputs: Inputs): Reaction
  {
    match st
    case Connected => Reaction(Connected, ConnectedHandler.OnEnter(self), None)
    case InGame(player, loopStarted) => InGameHandler.OnEnter(self, player, loopStarted, inputs.entry)
  }

  /** SetState: the old state's exit hook runs first (if there is an old
      state); then the new state is installed and, unless it is nil, its
      enter hook runs. */
  function SetState(c: Client, env: Env, inputs: Inputs, next: Option<State>): (s: Step)
    ensures s.client.id == c.id
    ensures s.env.world.spores == env.world.spores
    ensures next.None? ==> s.client.state == None
    ensures next.Some? ==> s.client.state.Some? && s.client.state.value.Connected? == next.value.Connected?
    ensures QueueBounded(c) ==> QueueBounded(s.client)
    ensures forall i :: 0 <= i < |s.broadcasts| ==> s.broadcasts[i].senderId == c.id
  {
    var exit := if c.state.Some? then PerformAll(c, env, inputs, OnExit(c.state.value, c.id)) else Step(c, env, []);
    var installed := exit.client.(state := next);
    if next.None? then Step(installed, exit.env, exit.broadcasts)
    else
      var rx := OnEnter(next.value, c.id, inputs);
      var enter := PerformAll(installed.(state := Some(rx.state)), exit.env, inputs, rx.actions);
      Step(enter.client, enter.env, exit.broadcasts + enter.broadcasts)
  }

  /** Initialize: set the id, then enter a fresh Connected state. */
  function Initialize(c: Client, env: Env, inputs: Inputs, id: Id): (s: Step)
    ensures s.client.id == id
    ensures s.client.state == Some(Connected)
  {
    SetState(c.(id := id), env, inputs, Some(Connected))
  }

  /** The handler of the current state. */
  function Handle(st: State, self: Id, env: Env, inputs: Inputs, senderId: Id, msg: Msg): Reaction
  {
    match st
    case Connected => ConnectedHandler.HandleMessage(self, env.accounts, inputs.backend, senderId, msg)
    case InGame(player, loopStarted) => InGameHandler.HandleMessage(self, player, loopStarted, senderId, msg)
  }

  /** ProcessMessage: hand the message to the current state, carry out its
      actions, then switch state if it asked to. Go dereferences a nil state
      here; the model leaves such a client unchanged. */
  function ProcessMessage(c: Client, env: Env, inputs: Inputs, senderId: Id, msg: Msg): (s: Step)
    ensures s.client.id == c.id
    ensures s.env.world.spores == env.world.spores
    ensures c.state.None? ==> s == Step(c, env, [])
    ensures QueueBounded(c) ==> QueueBounded(s.client)
    ensures forall i :: 0 <= i < |s.broadcasts| ==> s.broadcasts[i].senderId == c.id
  {
    if c.state.None? then Step(c, env, [])
    else
      var rx := Handle(c.state.value, c.id, env, inputs, senderId, msg);
      var s1 := PerformAll(c.(state := Some(rx.state)), env, inputs, rx.actions);
      if rx.next.None? then s1
      else
        var s2 := SetState(s1.client, s1.env, inputs, rx.next);
        Step(s2.client, s2.env, s1.broadcasts + s2.broadcasts)
  }

  /** The sender id ReadPump dispatches under: 0 means the client itself. */
  function InboundSender(c: Client, p: Packet): (sender: Id)
    ensures p.senderId == 0 ==> sender == c.id
    ensures p.senderId != 0 ==> sender == p.senderId
  {
    if p.senderId == 0 then c.id else p.senderId
  }

  /** A client in InGame with its loop flag set runs exactly one movement
      loop; any other client runs none. */
  ghost predicate LoopsMatchState(c: Client)
  {
    c.loops == (if c.state.Some? && c.state.value.InGame? && c.state.value.loopStarted then 1 else 0)
  }

  /** Actions without a cancellation add one running loop per start. */
  lemma {:induction false} PerformAllLoops(c: Client, env: Env, inputs: Inputs, acts: seq<Action>)
    requires CancelUpdateLoop !in acts
    ensures PerformAll(c, env, inputs, acts).client.loops == c.loops + InGameHandler.CountStarts(acts)
    decreases |acts|
  {
    if |acts| > 0 {
      assert acts[0] in acts;
      assert forall a :: a in acts[1..] ==> a in acts;
      var s1 := Perform(c, env, inputs, acts[0]);
      if acts[0].StreamSpores? {
        assert s1.client.loops == c.loops;
      }
      PerformAllLoops(s1.client, s1.env, inputs, acts[1..]);
    }
  }

  /** Unfolding PerformAll by one action. */
  lemma PerformAllCons(c: Client, env: Env, inputs: Inputs, acts: seq<Action>)
    requires |acts| > 0
    ensures var s1 := Perform(c, env, inputs, acts[0]);
      var s2 := PerformAll(s1.client, s1.env, inputs, acts[1..]);
      && PerformAll(c, env, inputs, acts).client == s2.client
      && PerformAll(c, env, inputs, acts).env == s2.env
  {
  }

  /** The enter hooks never start or cancel a loop. */
  lemma EnterHookKeepsLoops(st: State, self: Id, inputs: Inputs, c: Client, env: Env)
    ensures PerformAll(c, env, inputs, OnEnter(st, self, inputs).actions).client.loops == c.loops
  {
    var acts := OnEnter(st, self, inputs).actions;
    assert CancelUpdateLoop !in acts;
    PerformAllLoops(c, env, inputs, acts);
    assert InGameHandler.CountStarts(acts) == 0 by {
      if st.InGame? {
        assert acts[1..][1..][1..] == [];
        assert InGameHandler.CountStarts(acts[1..][1..]) == 0;
        assert InGameHandler.CountStarts(acts[1..]) == 0;
      } else {
        assert acts[1..] == [];
      }
    }
  }

  /** The exit hooks stop the loop if it runs, and start none. */
  lemma ExitHookStopsLoop(c: Client, env: Env, inputs: Inputs)
    requires c.state.Some?
    requires LoopsMatchState(c)
    ensures PerformAll(c, env, inputs, OnExit(c.state.value, c.id)).client.loops == 0
  {
    var acts := OnExit(c.state.value, c.id);
    if c.state.value.InGame? && c.state.value.loopStarted {
      var s1 := Perform(c, env, inputs, CancelUpdateLoop);
      assert acts == [CancelUpdateLoop, RemovePlayer(c.id)];
      assert acts[1..] == [RemovePlayer(c.id)];
      PerformAllCons(c, env, inputs, acts);
      PerformAllCons(s1.client, s1.env, inputs, acts[1..]);
      assert acts[1..][1..] == [];
    } else {
      assert CancelUpdateLoop !in acts;
      PerformAllLoops(c, env, inputs, acts);
      if c.state.value.InGame? {
        assert acts == [RemovePlayer(c.id)];
        assert acts[1..] == [];
      }
    }
  }

  /** Switching to a fresh state (none, Connected, or an InGame whose loop has
      not started) keeps the running loops in step with the state: the old
      loop is cancelled exactly once and no new one is running. */
  lemma SetStateKeepsLoops(c: Client, env: Env, inputs: Inputs, next: Option<State>)
    requires LoopsMatchState(c)
    requires next.Some? && next.value.InGame? ==> !next.value.loopStarted
    ensures LoopsMatchState(SetState(c, env, inputs, next).client)
  {
    var exit := if c.state.Some? then PerformAll(c, env, inputs, OnExit(c.state.value, c.id)) else Step(c, env, []);
    if c.state.Some? {
      ExitHookStopsLoop(c, env, inputs);
    }
    assert exit.client.loops == 0;
    var installed := exit.client.(state := next);
    if next.Some? {
      var rx := OnEnter(next.value, c.id, inputs);
      EnterHookKeepsLoops(next.value, c.id, inputs, installed.(state := Some(rx.state)), exit.env);
      if next.value.InGame? {
        assert !rx.state.loopStarted;
      }
    }
  }

  /** Actions without a start count no starts. */
  lemma {:induction false} NoStartsCounted(acts: seq<Action>)
    requires StartUpdateLoop !in acts
    ensures InGameHandler.CountStarts(acts) == 0
    decreases |acts|
  {
    if |acts| > 0 {
      assert acts[0] in acts;
      assert forall a :: a in acts[1..] ==> a in acts;
      NoStartsCounted(acts[1..]);
    }
  }

  /** In Connected no message starts or cancels a loop, and the only state
      the handler moves to is an InGame whose loop has not started. */
  lemma ConnectedStartsNoLoop(self: Id, accounts: Accounts, backend: Backend, senderId: Id, msg: Msg)
    ensures var rx := ConnectedHandler.HandleMessage(self, accounts, backend, senderId, msg);
      && InGameHandler.CountStarts(rx.actions) == 0
      && CancelUpdateLoop !in rx.actions
  {
    var rx := ConnectedHandler.HandleMessage(self, accounts, backend, senderId, msg);
    NoStartsCounted(rx.actions);
  }

  lemma ProcessConnectedKeepsLoops(c: Client, env: Env, inputs: Inputs, senderId: Id, msg: Msg)
    requires c.state == Some(Connected)
    requires LoopsMatchState(c)
    ensures LoopsMatchState(ProcessMessage(c, env, inputs, senderId, msg).client)
  {
    var rx := ConnectedHandler.HandleMessage(c.id, env.accounts, inputs.backend, senderId, msg);
    ConnectedStartsNoLoop(c.id, env.accounts, inputs.backend, senderId, msg);
    var c1 := c.(state := Some(rx.state));
    PerformAllLoops(c1, env, inputs, rx.actions);
    var s1 := PerformAll(c1, env, inputs, rx.actions);
    assert s1.client.loops == 0;
    if rx.next.Some? {
      SetStateKeepsLoops(s1.client, s1.env, inputs, rx.next);
    }
  }

  lemma ProcessInGameKeepsLoops(c: Client, env: Env, inputs: Inputs, senderId: Id, msg: Msg)
    requires c.state.Some? && c.state.value.InGame?
    requires LoopsMatchState(c)
    ensures LoopsMatchState(ProcessMessage(c, env, inputs, senderId, msg).client)
  {
    var st := c.state.value;
    var rx := InGameHandler.HandleMessage(c.id, st.player, st.loopStarted, senderId, msg);
    assert CancelUpdateLoop !in rx.actions;
    var c1 := c.(state := Some(rx.state));
    PerformAllLoops(c1, env, inputs, rx.actions);
  }

  /** Every message keeps the running loops in step with the state: at most
      one movement loop per client at any time. */
  lemma ProcessMessageKeepsLoops(c: Client, env: Env, inputs: Inputs, senderId: Id, msg: Msg)
    requires LoopsMatchState(c)
    ensures LoopsMatchState(ProcessMessage(c, env, inputs, senderId, msg).client)
  {
    if c.state == Some(Connected) {
      ProcessConnectedKeepsLoops(c, env, inputs, senderId, msg);
    } else if c.state.Some? {
      ProcessInGameKeepsLoops(c, env, inputs, senderId, msg);
    }
  }

  /** A spore broadcast changes nothing: neither state handles spore messages,
      so the replenishment packets the hub fans out never reach a queue. */
  lemma SporeMessageIgnored(c: Client, env: Env, inputs: Inputs, senderId: Id, sm: SporeMessage)
    ensures ProcessMessage(c, env, inputs, senderId, SporeMsg(sm)) == Step(c, env, [])
  {
    if c.state.Some? {
      var rx := Handle(c.state.value, c.id, env, inputs, senderId, SporeMsg(sm));
      assert rx.state == c.state.value && rx.actions == [] && rx.next == None;
      assert c.(state := Some(rx.state)) == c;
    }
  }

  /** Initialize on a client that has no state yet: the id is set, Connected is
      entered, and the id is the one packet the client is sent. */
  lemma InitializeSendsId(c: Client, env: Env, inputs: Inputs, id: Id)
    requires c.state.None?
    requires |c.queue| < SendCapacity
    ensures Initialize(c, env, inputs, id).client.queue == c.queue + [Packet(id, IdMsg(id))]
    ensures Initialize(c, env, inputs, id).env == env
    ensures Initialize(c, env, inputs, id).broadcasts == []
  {
    var c0 := c.(id := id);
    var acts := ConnectedHandler.OnEnter(id);
    assert acts == [SendAs(id, IdMsg(id))];
    var installed := c0.(state := Some(Connected));
    var s1 := Perform(installed, env, inputs, acts[0]);
    assert s1.client.queue == c.queue + [Packet(id, IdMsg(id))];
    assert s1.env == env && s1.broadcasts == [];
    assert acts[1..] == [];
    assert PerformAll(installed, env, inputs, acts) == Step(s1.client, s1.env, []);
  }

  /** The InGame enter hook's effects: the placed player is registered under
      the id, it is the next packet queued (when there is room), and the
      accounts are untouched. */
  lemma EnterInGameEffects(c: Client, env: Env, inputs: Inputs, self: Id, p: Player, ls: bool)
    requires c.id == self
    ensures var placed := InGameHandler.Placed(p, inputs.entry);
      var s := PerformAll(c, env, inputs, OnEnter(InGame(p, ls), self, inputs).actions);
      && Get(s.env.world.players, self) == Some(placed)
      && s.env.accounts == env.accounts
      && (|c.queue| < SendCapacity ==> c.queue + [Packet(self, NewPlayer(self, placed))] <= s.client.queue)
  {
    var acts := OnEnter(InGame(p, ls), self, inputs).actions;
    var placed := InGameHandler.Placed(p, inputs.entry);
    var s1 := Perform(c, env, inputs, acts[0]);
    assert Get(s1.env.world.players, self) == Some(placed);
    var s2 := Perform(s1.client, s1.env, inputs, acts[1]);
    assert s2.client.queue == SocketSendAs(c, NewPlayer(self, placed), self).queue;
    var s3 := Perform(s2.client, s2.env, inputs, acts[2]);
    assert s3.env == s2.env;
    assert acts[1..][1..][1..] == [];
    PerformAllCons(c, env, inputs, acts);
    PerformAllCons(s1.client, s1.env, inputs, acts[1..]);
    PerformAllCons(s2.client, s2.env, inputs, acts[1..][1..]);
  }

  /** The exit hook runs before the new state's enter hook: re-entering InGame
      from InGame leaves the freshly placed player registered under the id
      (the exit removes the old entry, then the enter adds the new one). */
  lemma SetStateExitsBeforeEntering(c: Client, env: Env, inputs: Inputs, p: Player, ls: bool, q: Player)
    requires c.state == Some(InGame(p, ls))
    ensures var s := SetState(c, env, inputs, Some(InGame(q, false)));
      Get(s.env.world.players, c.id) == Some(InGameHandler.Placed(q, inputs.entry))
  {
    var exit := PerformAll(c, env, inputs, OnExit(c.state.value, c.id));
    var rx := OnEnter(InGame(q, false), c.id, inputs);
    EnterInGameEffects(exit.client.(state := Some(rx.state)), exit.env, inputs, c.id, q, false);
  }

  /** Switching to nil runs the InGame exit hook: the player registered under
      the id is removed, the loop is stopped, and no enter hook runs (nothing
      is sent). */
  lemma SetStateNilRunsExit(c: Client, env: Env, inputs: Inputs, p: Player, ls: bool)
    requires c.state == Some(InGame(p, ls))
    requires LoopsMatchState(c)
    ensures var s := SetState(c, env, inputs, None);
      && s.client.state == None
      && Get(s.env.world.players, c.id) == None
      && s.client.queue == c.queue
      && s.client.loops == 0
  {
    ExitHookStopsLoop(c, env, inputs);
    var acts := OnExit(c.state.value, c.id);
    if ls {
      assert acts == [CancelUpdateLoop, RemovePlayer(c.id)];
      var s1 := Perform(c, env, inputs, acts[0]);
      var s2 := Perform(s1.client, s1.env, inputs, acts[1]);
      assert Get(s2.env.world.players, c.id) == None;
      assert acts[1..][1..] == [];
      PerformAllCons(c, env, inputs, acts);
      PerformAllCons(s1.client, s1.env, inputs, acts[1..]);
    } else {
      assert acts == [RemovePlayer(c.id)];
      var s1 := Perform(c, env, inputs, acts[0]);
      assert Get(s1.env.world.players, c.id) == None;
      assert acts[1..] == [];
      PerformAllCons(c, env, inputs, acts);
    }
  }

  /** Guest login end to end: the client is sent Ok and then its own player,
      placed with radius 20 and speed 150, registered under its id, and it is
      now InGame with no loop running. */
  lemma GuestLoginEntersGame(c: Client, env: Env, inputs: Inputs, name: string)
    requires c.state == Some(Connected)
    requires |c.queue| + 2 <= SendCapacity
    ensures var s := ProcessMessage(c, env, inputs, c.id, GuestLoginRequest(name));
      var placed := InGameHandler.Placed(FreshPlayer(name), inputs.entry);
      && s.client.state == Some(InGame(placed, false))
      && |s.client.queue| >= |c.queue| + 2
      && s.client.queue[|c.queue|] == Packet(c.id, OkResponse)
      && s.client.queue[|c.queue| + 1] == Packet(c.id, NewPlayer(c.id, placed))
      && placed.radius == 20.0 && placed.speed == 150.0 && placed.name == name
      && Get(s.env.world.players, c.id) == Some(placed)
      && s.env.accounts == env.accounts
  {
    var rx := Handle(c.state.value, c.id, env, inputs, c.id, GuestLoginRequest(name));
    assert rx.actions == [SendAs(c.id, OkResponse)];
    var c1 := c.(state := Some(rx.state));
    assert c1 == c;
    var s0 := Perform(c1, env, inputs, rx.actions[0]);
    assert rx.actions[1..] == [];
    PerformAllCons(c1, env, inputs, rx.actions);
    var s1 := PerformAll(c1, env, inputs, rx.actions);
    assert s1.client == s0.client && s1.env == env;
    assert s1.client.queue == c.queue + [Packet(c.id, OkResponse)];
    var enter := OnEnter(InGame(FreshPlayer(name), false), c.id, inputs);
    EnterInGameEffects(s1.client.(state := Some(enter.state)), s1.env, inputs, c.id, FreshPlayer(name), false);
  }

  /** A client is InGame. */
  predicate InGameNow(c: Client)
  {
    c.state.Some? && c.state.value.InGame?
  }

  /** The two kinds InGame relays from a peer: chats and player updates. */
  predicate Relayable(msg: Msg)
  {
    msg.Chat? || msg.PlayerMsg?
  }

  /** What a relayed packet does to a client other than its sender: an InGame
      client queues it under the sender's id, or drops it when sendChan is
      full; a Connected or stateless client ignores it. */
  function Relayed(c: Client, p: Packet): (r: Client)
    ensures InGameNow(c) && |c.queue| < SendCapacity ==> r == c.(queue := c.queue + [p])
    ensures !(InGameNow(c) && |c.queue| < SendCapacity) ==> r == c
  {
    if InGameNow(c) then SocketSendAs(c, p.msg, p.senderId) else c
  }

  /** A chat or player update from a peer reaches the client's queue under the
      peer's id when the client is InGame and has room; otherwise it changes
      nothing. The shared data is untouched and nothing is broadcast. */
  lemma RelayFromPeer(c: Client, env: Env, inputs: Inputs, senderId: Id, msg: Msg)
    requires Relayable(msg)
    requires senderId != c.id
    ensures ProcessMessage(c, env, inputs, senderId, msg) == Step(Relayed(c, Packet(senderId, msg)), env, [])
    ensures var s := ProcessMessage(c, env, inputs, senderId, msg);
      InGameNow(c) && |c.queue| < SendCapacity ==> s.client.queue == c.queue + [Packet(senderId, msg)]
  {
    if c.state.Some? {
      var rx := Handle(c.state.value, c.id, env, inputs, senderId, msg);
      if c.state.value.InGame? {
        assert rx.actions == [SendAs(senderId, msg)];
        assert rx.next == None;
        assert c.(state := Some(rx.state)) == c;
        var s1 := Perform(c, env, inputs, SendAs(senderId, msg));
        assert s1 == Step(SocketSendAs(c, msg, senderId), env, []);
        assert rx.actions[1..] == [];
        assert PerformAll(c, env, inputs, rx.actions) == Step(s1.client, env, []);
      } else {
        assert rx == Reaction(Connected, [], None);
        assert c.(state := Some(rx.state)) == c;
      }
    }
  }

  /** The client's own chat is broadcast under its id; its queue, state and
      the shared data are untouched. */
  lemma OwnChatBroadcast(c: Client, env: Env, inputs: Inputs, text: string)
    requires InGameNow(c)
    ensures ProcessMessage(c, env, inputs, c.id, Chat(text)) == Step(c, env, [Packet(c.id, Chat(text))])
  {
    var rx := Handle(c.state.value, c.id, env, inputs, c.id, Chat(text));
    assert rx.actions == [Broadcast(Chat(text))];
    assert rx.next == None;
    assert c.(state := Some(rx.state)) == c;
    var s1 := Perform(c, env, inputs, Broadcast(Chat(text)));
    assert s1 == Step(c, env, [Packet(c.id, Chat(text))]);
    assert rx.actions[1..] == [];
    assert PerformAll(c, env, inputs, rx.actions) == Step(c, env, [Packet(c.id, Chat(text))]);
  }

  /** A player update claiming to come from the client itself is dropped:
      nothing is queued, broadcast or changed. */
  lemma OwnPlayerUpdateDropped(c: Client, env: Env, inputs: Inputs, pm: PlayerMessage)
    requires InGameNow(c)
    ensures ProcessMessage(c, env, inputs, c.id, PlayerMsg(pm)) == Step(c, env, [])
  {
    var rx := Handle(c.state.value, c.id, env, inputs, c.id, PlayerMsg(pm));
    assert rx == InGameHandler.Stay(c.state.value.player, c.state.value.loopStarted);
    assert c.(state := Some(rx.state)) == c;
  }

  /** Registration followed by login, both through ProcessMessage: a Connected
      client that registers a new name stays Connected, the directory gains
      the lower-cased name with the new hash, and a login under that name with
      a password the hash matches then enters InGame. */
  lemma RegisterThenLogin(c: Client, env: Env, inputs: Inputs, username: string, password: string)
    requires c.state == Some(Connected)
    requires ConnectedHandler.RegisterSucceeds(env.accounts, inputs.backend, username)
    requires inputs.backend.matches(inputs.backend.hashed.value, password)
    ensures var s1 := ProcessMessage(c, env, inputs, c.id, RegisterRequest(username, password));
      && s1.client.state == Some(Connected)
      && s1.env.accounts == env.accounts[Text.ToLower(username) := inputs.backend.hashed.value]
      && var s2 := ProcessMessage(s1.client, s1.env, inputs, c.id, LoginRequest(Text.ToLower(username), password));
         s2.client.state == Some(InGame(InGameHandler.Placed(FreshPlayer(Text.ToLower(username)), inputs.entry), false))
  {
    var lower := Text.ToLower(username);
    var hash := inputs.backend.hashed.value;
    ConnectedHandler.RegisterStores(c.id, env.accounts, inputs.backend, username, password);
    var acts := [CreateUser(lower, hash), SendAs(c.id, OkResponse)];
    var rx := Handle(Connected, c.id, env, inputs, c.id, RegisterRequest(username, password));
    assert rx == Reaction(Connected, acts, None);
    var a1 := Perform(c, env, inputs, acts[0]);
    assert a1.env.accounts == env.accounts[lower := hash];
    var a2 := Perform(a1.client, a1.env, inputs, acts[1]);
    assert acts[1..][1..] == [];
    PerformAllCons(c, env, inputs, acts);
    PerformAllCons(a1.client, a1.env, inputs, acts[1..]);
    var s1 := ProcessMessage(c, env, inputs, c.id, RegisterRequest(username, password));
    assert s1.env == a2.env && s1.client == a2.client;
    var login := Handle(Connected, c.id, s1.env, inputs, c.id, LoginRequest(lower, password));
    assert ConnectedHandler.CredentialsMatch(s1.env.accounts, inputs.backend, lower, password);
    assert login.next == Some(InGame(FreshPlayer(lower), false));
  }
}
