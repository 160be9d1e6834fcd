/** The message envelope and the packet constructors of pkg/packets/utils.go.
    The protobuf encoding is not modelled: a message is a tagged value. */
module Packets {
  import opened Collection
  import opened Objects

  datatype PlayerMessage = PlayerMessage(
    id: Id,
    name: string,
    x: real,
    y: real,
    radius: real,
    direction: real,
    speed: real,
    color: int)

  datatype SporeMessage = SporeMessage(id: Id, x: real, y: real, radius: real)

  /** The closed set of message kinds an envelope can carry. */
  datatype Msg =
    | Chat(text: string)
    | IdMsg(id: Id)
    | LoginRequest(username: string, password: string)
    | RegisterRequest(username: string, password: string)
    | GuestLoginRequest(username: string)
    | OkResponse
    | DenyResponse(reason: string)
    | PlayerMsg(player: PlayerMessage)
    | PlayerDirection(direction: real)
    | SporeMsg(spore: SporeMessage)
    | SporesBatch(spores: seq<SporeMessage>)
    | SporeConsumed(sporeId: Id)
    | Disconnect(reason: string)

  /** The envelope: the sender's id and one message. */
  datatype Packet = Packet(senderId: Id, msg: Msg)

  /** NewId: tells a client its own id. */
  function NewId(id: Id): (m: Msg)
    ensures m.IdMsg? && m.id == id
  {
    IdMsg(id)
  }

  /** NewOkResponse. */
  function NewOkResponse(): (m: Msg)
    ensures m.OkResponse?
  {
    OkResponse
  }

  /** NewDenyResponse: a denial carrying exactly the given reason. */
  function NewDenyResponse(reason: string): (m: Msg)
    ensures m.DenyResponse? && m.reason == reason
  {
    DenyResponse(reason)
  }

  /** The player a receiving client reconstructs from a player message. */
  function PlayerOf(pm: PlayerMessage): Player
  {
    Player(pm.name, pm.x, pm.y, pm.radius, pm.direction, pm.speed, pm.color)
  }

  /** NewPlayer: a player message under the supplied id that loses no field of
      the player. */
  function NewPlayer(id: Id, p: Player): (m: Msg)
    ensures m.PlayerMsg?
    ensures m.player.id == id
    ensures PlayerOf(m.player) == p
  {
    PlayerMsg(PlayerMessage(id, p.name, p.x, p.y, p.radius, p.direction, p.speed, p.color))
  }

  /** The spore a receiving client reconstructs from a spore message. */
  function SporeOf(sm: SporeMessage): Spore
  {
    Spore(sm.x, sm.y, sm.radius)
  }

  /** newSporeMessage: the spore's position and radius under the given id. */
  function NewSporeMessage(id: Id, s: Spore): (sm: SporeMessage)
    ensures sm.id == id
    ensures SporeOf(sm) == s
  {
    SporeMessage(id, s.x, s.y, s.radius)
  }

  /** NewSpore: one spore message. */
  function NewSpore(id: Id, s: Spore): (m: Msg)
    ensures m.SporeMsg?
    ensures m.spore.id == id
    ensures SporeOf(m.spore) == s
  {
    SporeMsg(NewSporeMessage(id, s))
  }

  /** NewSporesBatch: one spore message per entry of the batch map. The map is
      given as its entries in the order Go's `range` visits them. */
  function NewSporesBatch(entries: seq<(Id, Spore)>): (m: Msg)
    ensures m.SporesBatch?
    ensures |m.spores| == |entries|
    ensures forall i :: 0 <= i < |entries| ==>
              m.spores[i].id == entries[i].0 && SporeOf(m.spores[i]) == entries[i].1
  {
    SporesBatch(seq(|entries|, i requires 0 <= i < |entries| => NewSporeMessage(entries[i].0, entries[i].1)))
  }

  /** The entries a receiving client reconstructs from a batch. */
  function BatchEntries(sms: seq<SporeMessage>): (es: seq<(Id, Spore)>)
  {
    seq(|sms|, i requires 0 <= i < |sms| => (sms[i].id, SporeOf(sms[i])))
  }

  /** A batch loses nothing: decoding it gives back exactly its entries. */
  lemma BatchRoundTrip(entries: seq<(Id, Spore)>)
    ensures BatchEntries(NewSporesBatch(entries).spores) == entries
  {
  }
}
