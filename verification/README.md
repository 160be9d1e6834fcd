# go-godot game server, modelled in Dafny

This project models the server core of go-godot: a WebSocket hub that
registers clients, moves each client through a small state machine
(Connected, then InGame), fans broadcast packets out to every other client,
and keeps a field of spores populated. The model leaves out goroutines,
channels, sockets and the database. What remains is a set of immutable
datatypes and pure step functions:

- `Collection` (collection.dfy): the id-indexed `SharedCollection` with its
  auto-incrementing counter, and the snapshot iteration of `ForEach`.
- `Spawn` (spawn.dfy): the circle-overlap test `isTooClose` and the
  rejection-sampling search `SpawnCoords`. The random draws are an input
  sequence.
- `Packets` (packets.dfy): the message records and their constructors.
- `Text` (text.dfy): Go's byte length and `strings.TrimSpace` as username
  validation uses them, and `strings.ToLower` as registration uses it.
- `ConnectedHandler` and `InGameHandler` (connected.dfy, ingame.dfy): each
  state handler answers a message with a `Reaction`. A reaction holds the
  handler's own updated state, the actions it asks its client to perform,
  and the state to switch to next.
- `Clients` (websocket.dfy): the WebSocket client facade. It holds the
  bounded outbound queue (capacity 256), the `SetState` exit-then-enter
  protocol, message dispatch, and the interpretation of the handlers'
  actions against the shared world and the account directory.
- `Server` (hub.dfy): the hub record, the three cases of the select loop
  (register, unregister, broadcast) as separate steps, reading one packet,
  `PassToPeer`, `Close`, taking one packet off a client's outbound queue,
  the startup seeding, one replenishment tick and the replenishment loop.

Some behaviour is nondeterministic in Go: the iteration order of maps and
the results of `rand`, bcrypt and the database. The model passes these in
as explicit inputs. The lemmas quantify over all of them, for example over
every order that enumerates a map's keys.

Three behaviours of the code are easy to misread:

- `InGame.OnEnter` places the player at two uniform draws times 1000. It does
  not call `SpawnCoords`.
- A replenishment spore is announced with a packet from sender 0 whose spore
  message carries id 0 rather than the spore's registry id. Neither state
  handler has a case for spore messages, so every client ignores the packet
  (`Clients.SporeMessageIgnored`, `Server.SporeBroadcastOnlyDequeues`).
- Registration stores the lower-cased name. Login looks the name up exactly
  as typed. So a user who registered as "Alice" can only log in as "alice"
  (`ConnectedHandler.LoginIsCaseSensitive`).

## Model

| member | source | states |
|---|---|---|
| `Collection.New` | server/internal/server/objects/sharedCollection.go:15-28 | A new collection is empty: every lookup misses, its length is 0, and its counter starts at 1. |
| `Collection.Get` | server/internal/server/objects/sharedCollection.go:66-71 | The lookup succeeds exactly when the id is stored, and then yields the stored object. |
| `Collection.Add` | server/internal/server/objects/sharedCollection.go:31-43 | Add uses the explicit id if one is given and the counter otherwise. That id then holds the object, overwriting any earlier entry. Every other id is unchanged. The counter advances by one in both cases (below 2^64 - 1). |
| `Collection.Remove` | server/internal/server/objects/sharedCollection.go:46-50 | Afterwards the id is absent and every other id keeps its entry. The counter is untouched. Removing an absent id changes nothing. |
| `Collection.Len` | server/internal/server/objects/sharedCollection.go:74-76 | The length is 0 exactly when the map is empty, and it is positive whenever some id is stored. |
| `Collection.Snapshot` | server/internal/server/objects/sharedCollection.go:55-62 | The copy's iteration in a given order visits at most one entry per listed id, and every visit is a stored id paired with its stored object. |
| `Collection.SnapshotOfEnumeration` | server/internal/server/objects/sharedCollection.go:55-62 | Under any order that lists each key once, the iteration over the copy visits exactly the entries, in that order, with their stored values. |
| `Collection.SnapshotVisitsEachOnce` | server/internal/server/objects/sharedCollection.go:53-63 | For any enumeration order, the copy's iteration visits every stored entry exactly once, and there are as many visits as entries. |
| `Collection.EnumerationSize` | server/internal/server/objects/sharedCollection.go:55 | A duplicate-free listing of all keys is exactly as long as the key set. |
| `Collection.SnapshotAgree` | server/internal/server/objects/sharedCollection.go:55-56 | Two maps that agree on every listed key give the same iteration over their copies. |
| `Collection.ForEach` | server/internal/server/objects/sharedCollection.go:53-63 | Some order always exists: the visitor meets each entry of the copy exactly once, and the number of calls equals the length. |
| `Collection.VisitsSize` | server/internal/server/objects/sharedCollection.go:74-76 | Any visit sequence that meets each entry once has `Len` elements. |
| `Collection.LenAfterAdd` | server/internal/server/objects/sharedCollection.go:40 | The length grows by one when the id used was absent. It stays the same when the id was present (an overwrite). |
| `Collection.LenAfterRemove` | server/internal/server/objects/sharedCollection.go:49 | The length shrinks by one when the id was present. Otherwise it stays the same. |
| `Collection.NewIdsBelowNext` | server/internal/server/objects/sharedCollection.go:24-27 | A new collection satisfies the id invariant: every stored id is positive and below the counter. |
| `Collection.AutoAddIsFresh` | server/internal/server/objects/sharedCollection.go:35-41 | While the id invariant holds, an Add without an explicit id never overwrites. It grows the length by one and keeps the invariant. |
| `Collection.RemoveKeepsIdsBelowNext` | server/internal/server/objects/sharedCollection.go:46-50 | Remove keeps the id invariant. |
| `Collection.AutoIdsIncrease` | server/internal/server/objects/sharedCollection.go:35-42 | A run of automatic Adds hands out the ids nextId, nextId+1, and so on. These are strictly increasing and pairwise distinct, and the counter ends advanced by the number of Adds. |
| `Packets.NewId` | server/pkg/packets/utils.go:15-21 | The id message carries exactly the given id. |
| `Packets.NewOkResponse` | server/pkg/packets/utils.go:23-27 | The message is an Ok response. |
| `Packets.NewDenyResponse` | server/pkg/packets/utils.go:29-35 | The denial carries exactly the given reason. |
| `Packets.NewPlayer` | server/pkg/packets/utils.go:37-50 | The player message carries the supplied id, and all seven player fields can be recovered from it. |
| `Packets.NewSporeMessage` | server/pkg/packets/utils.go:79-86 | The spore message carries the given id, and the spore's position and radius can be recovered from it. |
| `Packets.NewSpore` | server/pkg/packets/utils.go:52-56 | The result is a spore message with that id, and the spore can be recovered from it. |
| `Packets.NewSporesBatch` | server/pkg/packets/utils.go:58-69 | There is one message per map entry. Each message carries its entry's key as its id, and the entry's spore can be recovered from it. |
| `Packets.BatchRoundTrip` | server/pkg/packets/utils.go:58-69 | Decoding a batch gives back exactly the entries it was built from. |
| `Objects.PlayerCircle` | server/internal/server/objects/spawn.go:5-6 | A player is tested as the circle at its own position with its own radius. |
| `Objects.SporeCircle` | server/internal/server/objects/spawn.go:7-8 | A spore is tested as the circle at its own position with its own radius. |
| `Spawn.Overlaps` | server/internal/server/objects/spawn.go:23-31 | Two circles with the same centre always overlap. When two circles overlap and the summed radius is non-negative, their centres are within that sum of each other on each axis. |
| `Spawn.ScanTooClose` | server/internal/server/objects/spawn.go:17-33 | The visitor's flag ends up set exactly when it was already set or some visited object overlaps. |
| `Spawn.IsTooClose` | server/internal/server/objects/spawn.go:10-36 | A nil collection is never too close. Otherwise, for visits that meet each object once, the result is true exactly when some stored object overlaps (squared distance at most the squared sum of radii, so touching counts). |
| `Spawn.TooCloseNow` | server/internal/server/objects/spawn.go:10-36 | Run over the collection's current contents, the test is true exactly when the collection exists and one of its objects overlaps the circle. |
| `Spawn.Backoff` | server/internal/server/objects/spawn.go:56-60 | After a failed attempt a counter in [0, 25] stays there. It wraps to 0 exactly when it had reached 25 before the increment. A positive bound doubles exactly when the counter wraps, and is kept otherwise. |
| `Spawn.BackoffStep` | server/internal/server/objects/spawn.go:56-60 | One failed attempt moves the (bound, counter) pair from attempt n to attempt n+1. The bound is 3000 * 2^(n div 26) and the counter is n mod 26, so the bound doubles on every 26th consecutive failure. |
| `Spawn.BoundAtMonotone` | server/internal/server/objects/spawn.go:43 | The search bound is never below 3000 and never decreases from one attempt to the next. |
| `Spawn.Coordinate` | server/internal/server/objects/spawn.go:48-49 | For a positive bound the coordinate is negative exactly when the draw is below one half, and it is zero exactly when the draw is one half. |
| `Spawn.Candidate` | server/internal/server/objects/spawn.go:48-49 | Attempt n reads draws 2n and 2n + 1. Each coordinate whose draw lies in [0, 1) falls in [-bound, bound) for that attempt's bound. |
| `Spawn.CoordinateInRange` | server/internal/server/objects/spawn.go:48-49 | For a draw in [0, 1), the coordinate bound * (2u - 1) lies in [-bound, bound). |
| `Spawn.SpawnCoords` | server/internal/server/objects/spawn.go:42-62 | A returned point is the candidate of attempt n, and it overlaps no player and no spore. Every earlier candidate overlapped something. Since candidate n is drawn within the doubling bound (`Spawn.CandidateInSquare`), the search widens as it fails. It gives up only when the draws run out. |
| `Spawn.CandidateInSquare` | server/internal/server/objects/spawn.go:43-49 | Attempt n's candidate lies in the square of half-width 3000 * 2^(n div 26). That width is at least 3000. |
| `Text.Utf8Len` | server/internal/server/states/connected.go:150-153 | The byte length of a name lies between its character count and four times that count. For ASCII it equals the character count. |
| `Text.IsSpace` | server/internal/server/states/connected.go:156 | On ASCII the whitespace set is exactly tab, newline, vertical tab, form feed, carriage return and space. No character above U+3000 counts as whitespace. |
| `Text.TrimSpace` | server/internal/server/states/connected.go:156 | The trimmed name neither starts nor ends with whitespace and is no longer than the original. |
| `Text.TrimSpaceSlice` | server/internal/server/states/connected.go:156 | The trimmed name is a contiguous slice of the original. Everything before it and everything after it is whitespace. |
| `Text.TrimLeft` | server/internal/server/states/connected.go:156 | The result is the suffix that follows the longest all-space prefix. |
| `Text.TrimRight` | server/internal/server/states/connected.go:156 | The result is the prefix that precedes the longest all-space suffix. |
| `Text.TrimSpaceFixedPoint` | server/internal/server/states/connected.go:156 | Trimming leaves a name unchanged exactly when it neither starts nor ends with a space. |
| `Text.ToLower` | server/internal/server/states/connected.go:107 | Lowering keeps the length and lowers each character on its own. |
| `Text.ToLowerIdempotent` | server/internal/server/states/connected.go:107 | Lowering twice is the same as lowering once. |
| `ConnectedHandler.NameErrorTextsDistinct` | server/internal/server/states/connected.go:149-161 | The three validation failures have three different messages. |
| `ConnectedHandler.ValidateUsername` | server/internal/server/states/connected.go:149-161 | A name is accepted exactly when its byte length is in [3, 20] and it has no leading or trailing whitespace. Too short, too long and outer space are each reported under exactly their own condition, in that priority. |
| `ConnectedHandler.ValidateUsernameExamples` | server/internal/server/states/connected.go:150-158 | A 2-byte name is too short, a 3-byte name passes, a 21-byte name is too long, and a trailing space is refused. |
| `ConnectedHandler.OnEnter` | server/internal/server/states/connected.go:36-38 | Entering Connected sends the client its own id, under its own id. |
| `ConnectedHandler.HandleGuestLogin` | server/internal/server/states/connected.go:51-66 | A request from another sender is dropped. The client's own request gets Ok and moves to InGame with a fresh player of the requested name. No credential is checked. |
| `ConnectedHandler.HandleLogin` | server/internal/server/states/connected.go:68-99 | A request from another sender is dropped. The state changes exactly when the user exists and the hash matches, and then the client gets Ok and enters InGame under the name as typed. Every failure gets the same "Invalid username or password" denial. |
| `ConnectedHandler.HandleRegister` | server/internal/server/states/connected.go:101-147 | A request from another sender is dropped. Registration never changes state, and it only replies or stores a user. |
| `ConnectedHandler.RegisterActions` | server/internal/server/states/connected.go:107-146 | Every path through registration, the invalid name, the duplicate, the failed hash or store, and success, ends with a reply to the client. Nothing but replies and the store is requested. |
| `ConnectedHandler.HandleMessage` | server/internal/server/states/connected.go:40-49 | Only login, guest login and register are handled. Every other kind, and every message from another sender, is ignored. No message starts or stops a movement loop, and the only state ever entered is InGame with no loop running. |
| `ConnectedHandler.RegisterRejectsName` | server/internal/server/states/connected.go:108-114 | A name that fails validation is refused with "Invalid username: " followed by that validation error's text. Nothing is stored. |
| `ConnectedHandler.RegisterRejectsDuplicate` | server/internal/server/states/connected.go:116-121 | A valid name whose lower-cased form already exists is refused with "User already exists". Nothing is stored. |
| `ConnectedHandler.RegisterReportsFailure` | server/internal/server/states/connected.go:123-142 | When hashing or storing fails, the reply is the generic internal-error denial. |
| `ConnectedHandler.RegisterStores` | server/internal/server/states/connected.go:133-144 | A successful registration stores the lower-cased name with the new hash, then replies Ok. |
| `ConnectedHandler.RegisterOutcome` | server/internal/server/states/connected.go:101-147 | A user is stored, and Ok is sent, exactly when the request is the client's own and every step succeeds. A stored user always goes under the lower-cased name and never over an existing one. |
| `ConnectedHandler.RegisterDuplicateCaseFolded` | server/internal/server/states/connected.go:116-120 | Once "alice" exists, registering "Alice" is refused as a duplicate. |
| `ConnectedHandler.LoginFailuresIndistinguishable` | server/internal/server/states/connected.go:75-89 | A missing user and a wrong password produce the same reaction. |
| `ConnectedHandler.LoginIsCaseSensitive` | server/internal/server/states/connected.go:74-77 | With only "alice" stored, "Alice" cannot log in but "alice" can. |
| `InGameHandler.Placed` | server/internal/server/states/ingame.go:37-40 | The player keeps its name, direction and colour. It gets radius 20 and speed 150, and each draw in [0, 1) puts its coordinate in [0, 1000). |
| `InGameHandler.OnEnter` | server/internal/server/states/ingame.go:32-46 | The placed player is registered under the client's id and sent to the client itself. Then the spores are streamed in batches of 20. |
| `InGameHandler.OnExit` | server/internal/server/states/ingame.go:120-125 | The loop is cancelled exactly when one was started. The last action removes the player registered under the client's id, and no loop is started. |
| `InGameHandler.HandlePlayerUpdate` | server/internal/server/states/ingame.go:85-91 | An update claiming to come from the client itself is dropped. An update from a peer is relayed to the client under the peer's id. |
| `InGameHandler.HandleChat` | server/internal/server/states/ingame.go:65-71 | The client's own chat is broadcast. A peer's chat is sent to the client under the peer's id. |
| `InGameHandler.HandlePlayerDirection` | server/internal/server/states/ingame.go:73-83 | Only the client's own direction is applied, and it is written to the registered player. A loop start is requested exactly when none was started before. |
| `InGameHandler.HandleMessage` | server/internal/server/states/ingame.go:48-63 | The client never leaves InGame and the loop flag never resets. A loop starts only when the flag flips. Spore-consumed messages and all other kinds change nothing. |
| `InGameHandler.AtMostOneLoop` | server/internal/server/states/ingame.go:77-81 | Over any sequence of messages, one InGame state starts the movement loop at most once, and never if one was already running. |
| `InGameHandler.Fill` | server/internal/server/states/ingame.go:130-139 | Every batch the visitor sends is non-empty and has reached the batch size. The leftover is no longer than the starting batch plus the visits. |
| `InGameHandler.FillPartition` | server/internal/server/states/ingame.go:130-139 | The batches sent during the iteration, followed by the leftover batch, give back the visited spores in order. Every sent batch is full, and the leftover is smaller than a full batch. |
| `InGameHandler.SendInitialSpores` | server/internal/server/states/ingame.go:127-145 | Every message sent is a spores batch. |
| `InGameHandler.InitialSporesPartition` | server/internal/server/states/ingame.go:127-145 | Every visited spore reaches the client exactly once, in visiting order. All batches but the last are full, and the last is non-empty and at most full. |
| `InGameHandler.InitialSporesCoverRegistry` | server/internal/server/states/ingame.go:130-139 | Over any iteration order, the client receives every registered spore exactly once, under its registry id. |
| `Clients.WriteOne` | server/internal/server/clients/websocket.go:147 | The write pump takes the oldest queued packet. An empty queue yields nothing. Otherwise the packet is the queue's head, and the head followed by the remaining queue is the old queue. The id, state and loops are kept, and a client at capacity has room again. |
| `Clients.SendWriteCommute` | server/internal/server/clients/websocket.go:85-94 | The outbound queue is first in, first out: with room, queueing a packet and then taking one gives the same client and the same packet as taking one first and then queueing. A client that was full can queue again after one write. |
| `Clients.NewClient` | server/internal/server/clients/websocket.go:37-42 | A new client has an empty outbound queue, no state and no movement loop. |
| `Clients.Perform` | server/internal/server/clients/websocket.go:81-109 | Carrying out one handler effect (a send, a broadcast, a player add, write or remove, a loop start or cancel, a spore stream or a user insert) keeps the client's id and state and the spores. The queue only grows and stays within capacity, and every broadcast carries the client's id. |
| `Clients.SocketSendAs` | server/internal/server/clients/websocket.go:85-94 | Below capacity 256 the packet is appended with the given sender. At capacity the client is unchanged (the message is dropped). Sending never exceeds the capacity. |
| `Clients.SocketSend` | server/internal/server/clients/websocket.go:81-83 | Sending is sending as the client's own id. |
| `Clients.BroadcastPacket` | server/internal/server/clients/websocket.go:104-109 | The packet handed to the hub carries the client's own id. |
| `Clients.SetState` | server/internal/server/clients/websocket.go:51-69 | The id is kept. Switching to nil leaves the client without a state. Otherwise the client ends in a state of the requested kind, Connected or InGame. Every packet the hooks submit carries the client's id, and the queue stays within capacity. |
| `Clients.Initialize` | server/internal/server/clients/websocket.go:75-79 | The id is set and the client is in Connected. |
| `Clients.ProcessMessage` | server/internal/server/clients/websocket.go:71-73 | The id is kept and the queue stays within capacity. Broadcasts carry the client's id. A client with no state is left unchanged. |
| `Clients.InboundSender` | server/internal/server/clients/websocket.go:133-135 | Sender 0 is replaced by the client's own id. Any other sender is passed through. |
| `Clients.ExitHookStopsLoop` | server/internal/server/states/ingame.go:120-123 | Running the exit hook leaves no movement loop running. |
| `Clients.EnterHookKeepsLoops` | server/internal/server/states/ingame.go:32-46 | Entering a state neither starts nor stops a loop. |
| `Clients.SetStateKeepsLoops` | server/internal/server/clients/websocket.go:51-69 | Switching to nil, to Connected, or to a fresh InGame keeps the running loops in step with the state. |
| `Clients.ProcessMessageKeepsLoops` | server/internal/server/states/ingame.go:77-81 | Whatever message arrives, a client runs a movement loop exactly when its InGame state has started one, so never more than one. |
| `Clients.SporeMessageIgnored` | server/internal/server/states/ingame.go:48-59 | A spore message changes no client and no shared data, and it submits nothing. |
| `Clients.InitializeSendsId` | server/internal/server/clients/websocket.go:75-79 | Initializing a stateless client queues exactly one packet: its new id, sent as itself. The shared data is untouched. |
| `Clients.SetStateExitsBeforeEntering` | server/internal/server/clients/websocket.go:53-67 | The old exit hook runs before the new enter hook. Moving from InGame to a new InGame leaves the newly placed player registered under the id. |
| `Clients.SetStateNilRunsExit` | server/internal/server/clients/websocket.go:51-69 | Switching an InGame client to nil removes its player and stops its loop. The queue is untouched and no state remains. |
| `Clients.EnterInGameEffects` | server/internal/server/states/ingame.go:32-46 | Running the InGame enter hook registers the placed player under the client's id and leaves the accounts alone. With room in the queue, the client's next packet is its own player. |
| `Clients.Relayed` | server/internal/server/states/ingame.go:65-71 | A relayed packet is appended to the queue of an InGame client with room, unchanged. Every other client is left as it was. |
| `Clients.RelayFromPeer` | server/internal/server/states/ingame.go:65-91 | A peer's chat or player update is handled by queueing it under the peer's id when the client is InGame with room, and by nothing else: no shared data changes and nothing is broadcast. |
| `Clients.OwnChatBroadcast` | server/internal/server/states/ingame.go:65-68 | An InGame client's own chat changes nothing locally and submits exactly one broadcast: that chat under the client's id. |
| `Clients.OwnPlayerUpdateDropped` | server/internal/server/states/ingame.go:85-88 | An InGame client's own player update changes nothing and submits nothing. |
| `Clients.RegisterThenLogin` | server/internal/server/states/connected.go:68-147 | A Connected client whose registration succeeds stays Connected, and the accounts gain the lower-cased name with the new hash. Logging in next with the lower-cased name and a matching password puts the client InGame with a fresh player of that name. |
| `Clients.GuestLoginEntersGame` | server/internal/server/states/connected.go:57-65 | After a guest login the client receives Ok and then its own player (radius 20, speed 150, the requested name). That player is registered under the client's id, the client is InGame with no loop, and the accounts are untouched. |
| `Server.NewHub` | server/internal/server/hub.go:93-109 | A new hub has no clients, no players, no spores and nothing pending, and it satisfies the hub invariant. |
| `Server.Register` | server/internal/server/hub.go:125-127 | The client is stored under the counter's id and initialised with that same id, so it is in Connected. Every other entry is unchanged. |
| `Server.RegisterSendsId` | server/internal/server/hub.go:125-127 | A fresh client's first queued packet is its own id. Registration does not touch the world or the pending broadcasts. |
| `Server.RegisterNewClient` | server/internal/server/hub.go:125-127 | A client as NewWebSocketClient builds it, once registered, is Connected under an id no other client holds, with exactly its id packet queued. The shared data and pending broadcasts are untouched and the hub invariant is kept. |
| `Server.RegisterKeepsValid` | server/internal/server/hub.go:125-127 | Registration hands out an id that no registered client holds. It grows the registry by one and keeps the hub invariant. |
| `Server.Unregister` | server/internal/server/hub.go:128-130 | Only the entry under the id is removed. The hub invariant is kept. |
| `Server.Recipients` | server/internal/server/hub.go:132-136 | An id is a recipient exactly when it was visited and is not the sender. |
| `Server.RecipientsDistinct` | server/internal/server/hub.go:132-136 | Distinct visits give distinct recipients. |
| `Server.Deliver` | server/internal/server/hub.go:131-137 | The packet goes to the recipients, in visiting order. The registry's keys and counter are kept, and every client that is not a recipient is unchanged. |
| `Server.DeliverKeepsAllOk` | server/internal/server/hub.go:131-137 | Fanning a packet out keeps every client well formed: stored under its own id, within queue capacity, and with its loops in step with its state. |
| `Server.BroadcastStep` | server/internal/server/hub.go:131-137 | With nothing pending nothing happens. Otherwise the oldest packet is taken and fanned out to exactly the recipients of the snapshot, and the rest of the queue stays ahead of anything the fan-out submits. The registry's keys and the hub invariant are kept. |
| `Server.DeliverRelay` | server/internal/server/hub.go:131-137 | Fanning out a chat or a player update changes each recipient as `Clients.Relayed` says and leaves the shared data alone; nothing is broadcast in turn. |
| `Server.RelayReachesPeers` | server/internal/server/hub.go:131-137 | A pending chat or player update reaches every registered client other than its sender: an InGame client with room queues it under the sender's id. The sender, the shared data and the rest of the queue are untouched. |
| `Server.BroadcastExactlyOnce` | server/internal/server/hub.go:131-137 | For any iteration order, the packet reaches every registered client except the sender, each exactly once. The sender's entry is untouched. |
| `Server.ReplenishPacketReachesAll` | server/internal/server/hub.go:182-185 | Client ids start at 1, so a packet from sender 0 reaches every registered client. |
| `Server.SporeFanoutChangesNothing` | server/internal/server/hub.go:182-185 | Fanning out a spore message changes no client and no shared data, and it submits nothing. |
| `Server.SporeBroadcastOnlyDequeues` | server/internal/server/hub.go:131-137 | The broadcast step for a spore packet only removes it from the pending queue. |
| `Server.Receive` | server/internal/server/clients/websocket.go:110-139 | Reading a packet for an unregistered id changes nothing. Otherwise the client's current state handles the message through `Clients.ProcessMessage`, with sender 0 read as the client's own id. The client's entry becomes the handled client, the shared data becomes what the handlers left, and the packets they submitted are appended to the pending queue. Every other entry is unchanged and the hub invariant is kept. |
| `Server.Write` | server/internal/server/clients/websocket.go:141-172 | One write-pump step for a registered client takes the oldest packet off its queue and leaves its state alone. An empty queue or an unregistered id changes nothing. Every other client, the shared data and the pending queue are untouched, and the hub invariant is kept. |
| `Server.ReceiveDefaultsSender` | server/internal/server/clients/websocket.go:133-137 | A packet with sender 0 is handled exactly like one carrying the client's own id. |
| `Server.PassToPeer` | server/internal/server/clients/websocket.go:96-102 | A registered peer processes the message as coming from this client: its entry, the shared data and the pending queue become what `Clients.ProcessMessage` leaves, with the peer's submitted packets appended. With no such peer nothing happens. Every other entry is unchanged and the hub invariant is kept. |
| `Server.Close` | server/internal/server/clients/websocket.go:174-178 | Afterwards the id is unregistered and every other entry is unchanged. Closing an unregistered id changes nothing, and the hub invariant is kept. |
| `Server.CloseRemovesPlayer` | server/internal/server/clients/websocket.go:174-178 | Closing an InGame client runs its exit hook, so its player is removed from the world. Closing twice, once per pump, is the same as closing once. |
| `Server.RegisterThenClose` | server/internal/server/hub.go:125-130 | After register then close, no client is stored under the new id, and every other entry is as before registration. |
| `Server.SporeRadius` | server/internal/server/hub.go:158 | The radius is 10 + 3n for the normal draw n, but never less than 5: it is the larger of the two. |
| `Server.NewSpore` | server/internal/server/hub.go:157-165 | A new spore has the floored radius and a position that overlaps no player and no spore. None comes back only when every candidate the draws allow overlaps something. |
| `Server.PlaceSpores` | server/internal/server/hub.go:179-188 | Up to `count` spores are added under the next ids. Each has radius at least 5 and overlaps no player and no earlier spore. Existing spores and players are untouched. Placement stops early only when the random inputs run out. |
| `Server.Seed` | server/internal/server/hub.go:117-119 | Startup adds MaxSpores (1000) spores under the next ids, stopping early only when the random inputs run out. Players and existing spores are kept, and each new spore has radius at least 5 and overlaps no player and no earlier spore. Only the world changes, and the hub invariant is kept. |
| `Server.SeedNewHub` | server/internal/server/hub.go:98-119 | Seeding the hub NewHub builds leaves exactly as many spores as were placed, at most 1000, under ids 1 to that count. Clients, players and pending broadcasts stay empty, and the hub invariant holds. |
| `Server.ExtendsTrans` | server/internal/server/hub.go:179-181 | Placing a spores and then b more is placing a + b: the ids run on, old spores stay, and every new spore stays separated from all earlier ones. |
| `Server.Announcements` | server/internal/server/hub.go:182-185 | The announcement of the spores under a run of ids is, for each id in order, a packet from sender 0 whose spore message has id 0 and that spore's data. |
| `Server.ReplenishTick` | server/internal/server/hub.go:167-190 | At or above 1000 spores a tick does nothing. Otherwise it adds at most min(1000 - count, 10) spores under the next ids, so it never pushes the count above 1000, and it stops short only when the random inputs run out. Players and existing spores are kept and each new spore is separated from everything. The pending queue gains exactly the announcements of the new spores, in id order. The hub invariant is kept. |
| `Server.Replenish` | server/internal/server/hub.go:167-190 | Over any number of ticks, a spore count at or below 1000 stays there and each tick adds at most 10 spores. The spores are added under the next ids, each separated from everything before it, and players and earlier spores are kept. The pending queue gains one packet per added spore after what was already pending. Clients and accounts are untouched and the hub invariant is kept. |

## Left out

- Goroutines, mutexes, channels and `select`. Each hub case, each client
  step and each replenishment tick is one atomic step. The unbuffered
  broadcast channel becomes a queue of pending packets, and Go's deadlock
  behaviour is not modelled.
- The WebSocket upgrade, socket reads and writes, protobuf encoding, and
  `Serve` and `main`. These are transport code. A decoded packet is an
  argument of `Server.Receive`; `Server.Write` hands back the packet the
  write pump would encode. A failure to obtain a writer ends the pump and
  closes the client; that is not modelled. Marshal, write and writer-close
  errors drop only the packet being written, which `Server.Write` already
  reflects because the packet leaves the queue either way.
- The SQLite database, the schema, `NewDbTx` and bcrypt. The account
  directory is a map from lower-cased name to hash. bcrypt and the database
  results are the `Backend` record: a hash-match predicate, the outcome of
  hashing, and whether storing succeeded.
- Database lookup errors. The model's user lookup is map membership and
  cannot fail. In Go a lookup error other than "not found" is treated at
  registration like "not found", so hashing and storing go ahead
  (connected.go:116-121), and at login it gets the generic denial
  (connected.go:77-82).
- The user query's collation. The model assumes the query compares names
  byte for byte, so a name matches only as stored. The query and schema are
  not part of this model; `ConnectedHandler.LoginIsCaseSensitive` and the
  "Alice" example above rest on this assumption.
- The movement loop itself (`updatePlayerLoop`, `syncPlayer`): a ticker and
  cos/sin integration in floating point. The model tracks only whether a
  loop was started and whether it is cancelled.
- The draining of `sendChan` in `Close`. This receive-then-close is racy
  channel handling with no sequential meaning.
- Floating point: positions, radii and draws are `real`. NaN and infinities
  are not modelled.
- `rand.Float64` and `rand.NormFloat64`: their values are inputs. Go's
  `SpawnCoords` loops until it succeeds. The model's draws are finite, so the
  search returns `None` when they run out, and seeding and replenishment
  stop early in that case.
- `Clients.Perform`: the spore order of a spore stream is an input and is
  not required to list each registered spore once, so the model admits runs
  in which a client is sent some spores twice or not at all, which Go's
  `ForEach` cannot produce. Under an order that does enumerate the registry,
  `InGameHandler.InitialSporesCoverRegistry` shows every spore is sent
  exactly once.
- Map iteration order is an input (`order`, `sporeOrder`). `NewSporesBatch`
  receives the batch map's entries in insertion order, which is one order
  Go's `range` may choose.
- `Text.ToLower`: lowers ASCII letters only, because Go's Unicode case
  mapping tables are outside this model.
- `Collection.Add`: the counter wraps to 0 after 2^64 - 1 (`Succ`). The
  freshness lemmas and the seeding and replenishment methods assume the
  counter is far from that limit.
- `Clients.ProcessMessage`: Go dereferences a nil state here and panics. The
  model leaves such a client unchanged. Its contract states the invariants
  every message keeps; the effect of each kind of message is stated by
  `Clients.RelayFromPeer`, `Clients.OwnChatBroadcast`,
  `Clients.OwnPlayerUpdateDropped`, `Clients.SporeMessageIgnored`,
  `Clients.GuestLoginEntersGame` and `Clients.RegisterThenLogin`.
- `Server.Replenish`: states how many packets the ticks add, not their
  content. What each announcement carries is stated per tick by
  `Server.ReplenishTick`.
- `Clients.Initialize`: states only the id and the entered state. The queued
  id packet is stated by `Clients.InitializeSendsId` for a client that has no
  state yet, the only kind the hub registers.
- `InGameHandler.SendInitialSpores`: its contract states only the message
  kind. The partition and coverage properties are in
  `InGameHandler.InitialSporesPartition` and
  `InGameHandler.InitialSporesCoverRegistry`.
- `Packets.NewOkResponse`: states only the message kind, since the message
  has no fields.
- `NewChat` and `NewDisconnect` (utils.go) are constructors that the
  modelled code never calls.
- The spore-consumption rules (mass ratio, proximity) and respawning are not
  implemented by this code. `handleSporeConsumed` only logs, and the model
  ignores the message.
- The 50 ms pause between spore batches and the 100 ms pause between
  replenished spores are timing only.
