/** The InGame state (states/ingame.go): the state of a logged-in client. The
    movement loop itself (its ticker and the cos/sin integration) is not
    modelled; only whether it has been started and cancelled. */
module InGameHandler {
  import opened Wrappers
  import opened Collection
  import opened Objects
  import opened Packets
  import opened StateMachine

  const InitialRadius: real := 20.0
  const InitialSpeed: real := 150.0
  /** OnEnter scales each of its two uniform draws by this to place the player. */
  const PlacementScale: real := 1000.0
  /** The batch size OnEnter passes to sendInitialSpores. */
  const SporeBatchSize: int := 20

  /** The player as OnEnter initialises it from two draws of rand.Float64. */
  function Placed(p: Player, entry: (real, real)): (q: Player)
    ensures q.name == p.name && q.direction == p.direction && q.color == p.color
    ensures q.radius == InitialRadius && q.speed == InitialSpeed
    ensures 0.0 <= entry.0 < 1.0 ==> 0.0 <= q.x < PlacementScale
    ensures 0.0 <= entry.1 < 1.0 ==> 0.0 <= q.y < PlacementScale
  {
    p.(x := entry.0 * PlacementScale, y := entry.1 * PlacementScale, radius := InitialRadius, speed := InitialSpeed)
  }

  /** OnEnter: register the player under the client's id, send it to the
      client itself, then stream the spores. */
  function OnEnter(self: Id, player: Player, loopStarted: bool, entry: (real, real)): (r: Reaction)
    ensures r.next == None
    ensures r.state == InGame(Placed(player, entry), loopStarted)
    ensures r.actions == [AddPlayer(self, Placed(player, entry)), SendAs(self, NewPlayer(self, Placed(player, entry))), StreamSpores(SporeBatchSize)]
  {
    var p := Placed(player, entry);
    Reaction(InGame(p, loopStarted), [AddPlayer(self, p), SendAs(self, NewPlayer(self, p)), StreamSpores(SporeBatchSize)], None)
  }

  /** OnExit: cancel the movement loop if one was started, then remove the
      player registered under the client's id. */
  function OnExit(self: Id, loopStarted: bool): (acts: seq<Action>)
    ensures |acts| > 0 && acts[|acts| - 1] == RemovePlayer(self)
    ensures CancelUpdateLoop in acts <==> loopStarted
    ensures StartUpdateLoop !in acts
  {
    (if loopStarted then [CancelUpdateLoop] else []) + [RemovePlayer(self)]
  }

  function Stay(player: Player, loopStarted: bool): Reaction
  {
    Reaction(InGame(player, loopStarted), [], None)
  }

  /** handlePlayerUpdate: an update claiming to come from this client is an
      anomaly and is dropped; one from a peer is relayed to this client under
      the peer's id. */
  function HandlePlayerUpdate(self: Id, player: Player, loopStarted: bool, senderId: Id, msg: Msg): (r: Reaction)
    ensures senderId == self ==> r == Stay(player, loopStarted)
    ensures senderId != self ==> r == Reaction(InGame(player, loopStarted), [SendAs(senderId, msg)], None)
  {
    if senderId == self then Stay(player, loopStarted)
    else Reaction(InGame(player, loopStarted), [SendAs(senderId, msg)], None)
  }

  /** handleChat: this client's own chat goes out to everyone else; a peer's
      chat is shown to this client under the peer's id. */
  function HandleChat(self: Id, player: Player, loopStarted: bool, senderId: Id, msg: Msg): (r: Reaction)
    ensures senderId == self ==> r.actions == [Broadcast(msg)]
    ensures senderId != self ==> r.actions == [SendAs(senderId, msg)]
    ensures r.state == InGame(player, loopStarted) && r.next == None
  {
    if senderId == self then Reaction(InGame(player, loopStarted), [Broadcast(msg)], None)
    else Reaction(InGame(player, loopStarted), [SendAs(senderId, msg)], None)
  }

  /** handlePlayerDirection: only this client's own direction is applied; the
      movement loop starts on the first one only. */
  function HandlePlayerDirection(self: Id, player: Player, loopStarted: bool, senderId: Id, direction: real): (r: Reaction)
    ensures senderId != self ==> r == Stay(player, loopStarted)
    ensures senderId == self ==> r.state == InGame(player.(direction := direction), true)
    ensures senderId == self ==> UpdatePlayer(self, player.(direction := direction)) in r.actions
    ensures CountStarts(r.actions) == (if senderId == self && !loopStarted then 1 else 0)
    ensures r.next == None
  {
    if senderId != self then Stay(player, loopStarted)
    else
      var p := player.(direction := direction);
      var acts := [UpdatePlayer(self, p)] + (if loopStarted then [] else [StartUpdateLoop]);
      assert CountStarts(acts) == (if loopStarted then 0 else 1) by {
        assert acts[0] == UpdatePlayer(self, p);
        assert acts[1..] == (if loopStarted then [] else [StartUpdateLoop]);
        assert CountStarts([StartUpdateLoop]) == 1;
      }
      Reaction(InGame(p, true), acts, None)
  }

  /** HandleMessage: player updates, directions and chats are handled; a spore
      consumption is only logged; every other kind is ignored. No message
      leaves the state. */
  function HandleMessage(self: Id, player: Player, loopStarted: bool, senderId: Id, msg: Msg): (r: Reaction)
    ensures r.next == None
    ensures r.state.InGame?
    ensures loopStarted ==> r.state.loopStarted
    ensures CountStarts(r.actions) == (if r.state.loopStarted && !loopStarted then 1 else 0)
    ensures !(msg.PlayerMsg? || msg.PlayerDirection? || msg.Chat?) ==> r == Stay(player, loopStarted)
  {
    match msg
    case PlayerMsg(_) => HandlePlayerUpdate(self, player, loopStarted, senderId, msg)
    case PlayerDirection(d) =>
      HandlePlayerDirection(self, player, loopStarted, senderId, d)
    case Chat(_) => HandleChat(self, player, loopStarted, senderId, msg)
    case SporeConsumed(_) => Stay(player, loopStarted)
    case _ => Stay(player, loopStarted)
  }

  /** The number of loop starts among the actions. */
  function CountStarts(acts: seq<Action>): nat
  {
    if |acts| == 0 then 0
    else (if acts[0] == StartUpdateLoop then 1 else 0) + CountStarts(acts[1..])
  }

  lemma {:induction false} CountStartsAppend(a: seq<Action>, b: seq<Action>)
    ensures CountStarts(a + b) == CountStarts(a) + CountStarts(b)
    decreases |a|
  {
    if |a| > 0 {
      assert (a + b)[0] == a[0];
      assert (a + b)[1..] == a[1..] + b;
      CountStartsAppend(a[1..], b);
    } else {
      assert a + b == b;
    }
  }

  /** The handler run over a sequence of (sender, message) pairs: the final
      state and every action, in order. */
  function Run(self: Id, player: Player, loopStarted: bool, inbox: seq<(Id, Msg)>): (r: (State, seq<Action>))
    ensures r.0.InGame?
    decreases |inbox|
  {
    if |inbox| == 0 then (InGame(player, loopStarted), [])
    else
      var rx := HandleMessage(self, player, loopStarted, inbox[0].0, inbox[0].1);
      var rest := Run(self, rx.state.player, rx.state.loopStarted, inbox[1..]);
      (rest.0, rx.actions + rest.1)
  }

  /** Whatever messages arrive, one InGame state starts the movement loop at
      most once, and never when one was already started. */
  lemma {:induction false} AtMostOneLoop(self: Id, player: Player, loopStarted: bool, inbox: seq<(Id, Msg)>)
    ensures CountStarts(Run(self, player, loopStarted, inbox).1) == (if Run(self, player, loopStarted, inbox).0.loopStarted && !loopStarted then 1 else 0)
    ensures loopStarted ==> Run(self, player, loopStarted, inbox).0.loopStarted
    ensures CountStarts(Run(self, player, loopStarted, inbox).1) <= 1
    decreases |inbox|
  {
    if |inbox| > 0 {
      var rx := HandleMessage(self, player, loopStarted, inbox[0].0, inbox[0].1);
      AtMostOneLoop(self, rx.state.player, rx.state.loopStarted, inbox[1..]);
      var rest := Run(self, rx.state.player, rx.state.loopStarted, inbox[1..]);
      CountStartsAppend(rx.actions, rest.1);
    }
  }

  /** The batching of sendInitialSpores: the batches sent inside the ForEach
      and the batch map left over at its end. `current` is the batch map built
      so far, as its entries in insertion order. */
  function Fill(visits: seq<(Id, Spore)>, batchSize: int, current: seq<(Id, Spore)>): (r: (seq<seq<(Id, Spore)>>, seq<(Id, Spore)>))
    ensures forall i :: 0 <= i < |r.0| ==> |r.0[i]| > 0 && |r.0[i]| >= batchSize
    ensures |r.1| <= |current| + |visits|
    decreases |visits|
  {
    if |visits| == 0 then ([], current)
    else
      var batch := current + [visits[0]];
      if |batch| >= batchSize then
        var rest := Fill(visits[1..], batchSize, []);
        ([batch] + rest.0, rest.1)
      else Fill(visits[1..], batchSize, batch)
  }

  /** The effective size of a full batch: a batch is sent as soon as it holds
      batchSize entries, and never holds fewer than one when sent. */
  function FullSize(batchSize: int): nat
  {
    if batchSize < 1 then 1 else batchSize
  }

  function Flatten<T>(bs: seq<seq<T>>): seq<T>
  {
    if |bs| == 0 then [] else bs[0] + Flatten(bs[1..])
  }

  /** Batching partitions the visits: concatenating the sent batches and the
      leftover gives back the input in order; every sent batch is full; the
      leftover is smaller than a full batch. */
  lemma {:induction false} FillPartition(visits: seq<(Id, Spore)>, batchSize: int, current: seq<(Id, Spore)>)
    requires |current| < FullSize(batchSize)
    ensures Flatten(Fill(visits, batchSize, current).0) + Fill(visits, batchSize, current).1 == current + visits
    ensures forall i :: 0 <= i < |Fill(visits, batchSize, current).0| ==> |Fill(visits, batchSize, current).0[i]| == FullSize(batchSize)
    ensures |Fill(visits, batchSize, current).1| < FullSize(batchSize)
    decreases |visits|
  {
    if |visits| > 0 {
      var batch := current + [visits[0]];
      assert current + visits == batch + visits[1..];
      if |batch| >= batchSize {
        FillPartition(visits[1..], batchSize, []);
        var rest := Fill(visits[1..], batchSize, []);
        assert Flatten([batch] + rest.0) == batch + Flatten(rest.0) by {
          assert ([batch] + rest.0)[0] == batch;
          assert ([batch] + rest.0)[1..] == rest.0;
        }
        assert Flatten([batch] + rest.0) + rest.1 == batch + (Flatten(rest.0) + rest.1);
      } else {
        FillPartition(visits[1..], batchSize, batch);
      }
    }
  }

  /** sendInitialSpores over the visits of one ForEach of the spores: every
      batch sent inside the iteration, then the remainder if it is not empty. */
  function SendInitialSpores(visits: seq<(Id, Spore)>, batchSize: int): (msgs: seq<Msg>)
    ensures forall i :: 0 <= i < |msgs| ==> msgs[i].SporesBatch?
  {
    var (sent, rest) := Fill(visits, batchSize, []);
    seq(|sent|, i requires 0 <= i < |sent| => NewSporesBatch(sent[i]))
      + (if |rest| > 0 then [NewSporesBatch(rest)] else [])
  }

  /** The spore entries a client reads back from a run of batch messages. */
  function Received(msgs: seq<Msg>): seq<(Id, Spore)>
  {
    if |msgs| == 0 then []
    else (if msgs[0].SporesBatch? then BatchEntries(msgs[0].spores) else []) + Received(msgs[1..])
  }

  lemma {:induction false} ReceivedOfBatches(bs: seq<seq<(Id, Spore)>>)
    ensures Received(seq(|bs|, i requires 0 <= i < |bs| => NewSporesBatch(bs[i]))) == Flatten(bs)
    decreases |bs|
  {
    if |bs| > 0 {
      var msgs := seq(|bs|, i requires 0 <= i < |bs| => NewSporesBatch(bs[i]));
      assert msgs[1..] == seq(|bs[1..]|, i requires 0 <= i < |bs[1..]| => NewSporesBatch(bs[1..][i]));
      BatchRoundTrip(bs[0]);
      ReceivedOfBatches(bs[1..]);
    }
  }

  lemma {:induction false} ReceivedAppend(a: seq<Msg>, b: seq<Msg>)
    ensures Received(a + b) == Received(a) + Received(b)
    decreases |a|
  {
    if |a| > 0 {
      assert (a + b)[0] == a[0];
      assert (a + b)[1..] == a[1..] + b;
      ReceivedAppend(a[1..], b);
    } else {
      assert a + b == b;
    }
  }

  /** sendInitialSpores delivers every visited spore exactly once and in
      visiting order; all batches but a final remainder are full, and the
      remainder is sent only when it is not empty, smaller than a full batch. */
  lemma InitialSporesPartition(visits: seq<(Id, Spore)>, batchSize: int)
    ensures Received(SendInitialSpores(visits, batchSize)) == visits
    ensures var msgs := SendInitialSpores(visits, batchSize);
      |msgs| > 0 ==> forall i :: 0 <= i < |msgs| - 1 ==> |msgs[i].spores| == FullSize(batchSize)
    ensures var msgs := SendInitialSpores(visits, batchSize);
      |msgs| > 0 ==> 0 < |msgs[|msgs| - 1].spores| <= FullSize(batchSize)
  {
    var (sent, rest) := Fill(visits, batchSize, []);
    FillPartition(visits, batchSize, []);
    var full := seq(|sent|, i requires 0 <= i < |sent| => NewSporesBatch(sent[i]));
    var tail := if |rest| > 0 then [NewSporesBatch(rest)] else [];
    ReceivedOfBatches(sent);
    ReceivedAppend(full, tail);
    if |rest| > 0 {
      BatchRoundTrip(rest);
      assert Received(tail) == rest by {
        assert tail[1..] == [];
      }
    }
    assert Flatten(sent) + rest == visits;
  }

  /** Over an enumeration of the spore registry, the client receives every
      spore exactly once, under its registry id. */
  lemma InitialSporesCoverRegistry(spores: Collection<Spore>, order: seq<Id>, batchSize: int)
    requires IsEnumeration(order, spores.objects.Keys)
    ensures VisitsEachOnce(spores, Received(SendInitialSpores(Snapshot(spores, order), batchSize)))
  {
    InitialSporesPartition(Snapshot(spores, order), batchSize);
    SnapshotVisitsEachOnce(spores, order);
  }
}
