/** The declarations the state handlers and the client share (hub.go's
    SharedGameObjects and ClientStateHandler): the world, the account
    directory, the two states and the effects a handler asks its client for. */
module StateMachine {
  import opened Wrappers
  import opened Collection
  import opened Objects
  import opened Packets

  /** SharedGameObjects: the players and the spores. */
  datatype World = World(players: Collection<Player>, spores: Collection<Spore>)

  /** The account directory: lower-cased user name to password hash. */
  type Accounts = map<string, string>

  /** The outcome of the collaborators a handler consults: bcrypt's comparison
      of a stored hash with a password, the hash bcrypt produced for a new
      password (None when hashing failed), and whether storing a new user
      succeeded. */
  datatype Backend = Backend(matches: (string, string) -> bool, hashed: Option<string>, storeOk: bool)

  /** The two state handlers. `loopStarted` stands for a non-nil
      cancelPlayerUpdateLoop. */
  datatype State =
    | Connected
    | InGame(player: Player, loopStarted: bool)

  /** What a handler asks its client to do, in order. */
  datatype Action =
    | SendAs(senderId: Id, msg: Msg)        // SocketSendAs (SocketSend uses the client's own id)
    | Broadcast(msg: Msg)                   // Broadcast through the hub
    | AddPlayer(id: Id, player: Player)     // Players.Add under an explicit id
    | UpdatePlayer(id: Id, player: Player)  // a write through the player pointer the registry holds
    | RemovePlayer(id: Id)                  // Players.Remove
    | StartUpdateLoop                       // go updatePlayerLoop
    | CancelUpdateLoop                      // cancelPlayerUpdateLoop()
    | StreamSpores(batchSize: int)          // go sendInitialSpores(batchSize, ...)
    | CreateUser(name: string, hash: string) // queries.CreateUser

  /** A handler's answer: its own updated state, the actions to perform, and
      the state to switch to afterwards, if any. */
  datatype Reaction = Reaction(state: State, actions: seq<Action>, next: Option<State>)
}
