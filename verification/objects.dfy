/** The game objects the core reads and writes. Go's float64 fields are
    modelled as reals. */
module Objects {

  /** A player: the fields the core reads and writes on objects.Player. */
  datatype Player = Player(
    name: string,
    x: real,
    y: real,
    radius: real,
    direction: real,
    speed: real,
    color: int)

  /** A spore: a passive circle in the world. */
  datatype Spore = Spore(x: real, y: real, radius: real)

  /** Position and radius of an object, as the spawn search sees it. */
  datatype Circle = Circle(x: real, y: real, radius: real)

  /** getPlayerPosition and getPlayerRadius: the spawn search sees a player
      at its own position with its own radius. */
  function PlayerCircle(p: Player): (c: Circle)
    ensures c.x == p.x && c.y == p.y && c.radius == p.radius
  {
    Circle(p.x, p.y, p.radius)
  }

  /** getSporePosition and getSporeRadius: the spawn search sees a spore at
      its own position with its own radius. */
  function SporeCircle(s: Spore): (c: Circle)
    ensures c.x == s.x && c.y == s.y && c.radius == s.radius
  {
    Circle(s.x, s.y, s.radius)
  }

  /** `&objects.Player{Name: username}`: every other field is Go's zero value. */
  function FreshPlayer(name: string): Player
  {
    Player(name, 0.0, 0.0, 0.0, 0.0, 0.0, 0)
  }
}
