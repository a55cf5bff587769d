/**
  What the four strategies decide from. The path graph, the map queries and the
  bot's knowledge about the round are computed by code outside this model; each
  arrives here as a field whose value is taken as given.
*/
module Strategies {
  import opened Wrappers
  import opened Common
  import opened Game

  /** The four strategies, as the bot remembers which one chose its previous move. */
  datatype StrategyType = Avoidance | Hunter | Killer | PickPellets

  /** The source's `u32`. */
  type U32 = n: nat | n < U32Limit

  /** The largest `u32`, the distance used when there is nobody to hunt. */
  const U32Max: nat := U32Limit - 1

  /** The largest `usize` of a 64-bit target, the cost used when no enemy can reach a tile. */
  const UsizeMax: nat := 0xFFFF_FFFF_FFFF_FFFF

  /** Another player: where it stands and whether it can currently eat us. */
  datatype Player = Player(position: Position, isDangerous: bool)

  /**
    The bot's side of a decision.
    `pathTo` and `costTo` are the path graph's answers from the bot's own tile: a
    path lists the destination first and the next step last, so walking pops from
    the end.
  */
  datatype Bot = Bot(
    canEatOthers: bool,
    remainingTicksDangerous: U32,
    previousDirection: Direction,
    previousStrategy: Option<StrategyType>,
    turningPoints: seq<Position>,
    pathTo: Position -> Option<seq<Position>>,
    costTo: Position -> Option<nat>)

  /**
    The game state's side: the bot's own tile, the other players, the remaining
    super pellets, and the map queries made from the bot's tile. `directionTo`
    gives the direction of a tile next to the bot, `adjacent` the tile one step away
    in a direction, `neighbours` the tiles around the bot in the map's order,
    `pointsInPath` the pellets along a path, and `shortest` the pathfinder's path
    between two tiles.
  */
  datatype State = State(
    me: Position,
    enemies: seq<Player>,
    superPellets: seq<Position>,
    tileAt: Position -> TileType,
    pointsInPath: seq<Position> -> nat,
    directionTo: Position -> Option<Direction>,
    adjacent: Direction -> Position,
    neighbours: seq<Position>,
    shortest: (Position, Position) -> Option<seq<Position>>)

  /** The step a path starts with: its last entry. */
  function NextStep(path: seq<Position>): Position
    requires path != []
  {
    path[|path| - 1]
  }
}
